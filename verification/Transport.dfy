/**
 Both ends of the IPC calls that carry paste data, and what a set followed by a get delivers. The
 request is handed to the stub as the proxy wrote it; interface tokens, permissions and transport
 errors are not part of this model.
 */
module Transport {
  import opened Wrappers
  import opened Sequences
  import opened Parcels
  import opened PasteDataRecords
  import opened PasteDataModel
  import opened PasteDataCodec
  import opened PasteDatas
  import opened ConsumingTables
  import opened AppCounters
  import opened HiViewAdapters
  import opened ServiceModel
  import opened PasteboardServices

  datatype Status = ERR_OK | ERR_INVALID_VALUE

  /** `ReadParcelable<PasteData>`. */
  function Received(g: Garble, ts: seq<Token>): Option<Contents>
  {
    var marker := ReadWord(g, ts);
    if marker.value == 0 then None else Some(Decode(g, marker.rest).value)
  }

  /** `WriteParcelable` on a paste data object. */
  function Sent(records: seq<Option<Record>>): seq<Token>
  {
    [Word(1)] + Encode(records)
  }

  method WritePasteData(parcel: Parcel, pasteData: PasteData) returns (ok: bool)
    requires parcel.Valid()
    modifies parcel`tokens
    ensures parcel.Valid() && parcel.tokens == old(parcel.tokens) + Sent(pasteData.records)
    ensures ok <==> Encodable(pasteData.records)
  {
    hide Encode;
    parcel.WriteUint32(1);
    ok := pasteData.Marshalling(parcel);
  }

  method ReadPasteData(parcel: Parcel) returns (pasteData: PasteData?)
    requires parcel.Valid()
    modifies parcel`cursor
    ensures parcel.Valid()
    ensures pasteData != null ==> fresh(pasteData)
    ensures Received(parcel.garble, old(parcel.Unread()))
            == if pasteData == null then None else Some(pasteData.Value())
  {
    hide Decode;
    var marker := parcel.ReadUint32();
    if marker == 0 {
      return null;
    }
    pasteData := PasteData.Unmarshalling(parcel);
  }

  /** The telemetry an adapter holds: its tables and its per-app counters. */
  ghost function TelemetryOf(adapter: HiViewAdapter): (Tables, Apps)
    reads adapter
  {
    (adapter.Stats(), adapter.Behaviour())
  }

  /** The telemetry after one call made in a state of the service. */
  ghost function TelemetryAfter(before: (Tables, Apps), s: State, c: Call): (Tables, Apps)
    requires Shape(before.0)
  {
    (StatsAfter(before.0, StatOps(s, c)), AppsAfterOps(before.1, AppOps(c)))
  }

  // The service end.

  method OnSetPasteData(service: PasteboardService, caller: Caller, data: Parcel) returns (code: Status)
    requires service.Valid() && data.Valid()
    modifies service`dataHistory, service`clips, service`rounds, service.adapter, data`cursor
    ensures service.Valid()
    ensures var pasteData := Received(data.garble, old(data.Unread()));
            code == (if pasteData.None? then ERR_INVALID_VALUE else ERR_OK)
            && service.Abstract() == (if pasteData.None? then old(service.Abstract())
                                      else Step(old(service.Abstract()), Set(caller, pasteData.value)))
    ensures var pasteData := Received(data.garble, old(data.Unread()));
            TelemetryOf(service.adapter)
            == if pasteData.None? then old(TelemetryOf(service.adapter))
               else TelemetryAfter(old(TelemetryOf(service.adapter)), old(service.Abstract()), Set(caller, pasteData.value))
  {
    hide Received, Step, StatOps, AppOps, StatsAfter, AppsAfterOps;
    ReceivedIsDecoded(data.garble, data.Unread());
    var pasteData := ReadPasteData(data);
    if pasteData == null {
      return ERR_INVALID_VALUE;
    }
    service.SetPasteData(caller, pasteData);
    return ERR_OK;
  }

  method OnGetPasteData(service: PasteboardService, caller: Caller, reply: Parcel) returns (code: Status)
    requires service.Valid() && reply.Valid()
    modifies service`dataHistory, service.adapter, reply`tokens
    ensures service.Valid() && service.Abstract() == Step(old(service.Abstract()), Get(caller))
    ensures TelemetryOf(service.adapter)
            == TelemetryAfter(old(TelemetryOf(service.adapter)), old(service.Abstract()), Get(caller))
    ensures reply.Valid()
    ensures var clip := GetReply(old(service.Abstract()), caller.user);
            code == (if clip.Some? && Encodable(clip.value.records) then ERR_OK else ERR_INVALID_VALUE)
            && reply.tokens == old(reply.tokens) + (if clip.None? then [] else Sent(clip.value.records))
  {
    hide Sent, Step, StatOps, AppOps, StatsAfter, AppsAfterOps, Encodable, GetReply;
    var pasteData := new PasteData();
    var hasPasteData := service.GetPasteData(caller, pasteData);
    if !hasPasteData {
      return ERR_INVALID_VALUE;
    }
    var written := WritePasteData(reply, pasteData);
    if !written {
      return ERR_INVALID_VALUE;
    }
    return ERR_OK;
  }

  method OnHasPasteData(service: PasteboardService, user: int, reply: Parcel) returns (code: Status)
    requires service.Valid() && reply.Valid()
    modifies reply`tokens
    ensures reply.Valid() && code == ERR_OK
    ensures reply.tokens
            == old(reply.tokens) + [Word(if GetReply(service.Abstract(), user).Some? then 1 else 0)]
  {
    var result := service.HasPasteData(user);
    reply.WriteUint32(if result then 1 else 0);
    return ERR_OK;
  }

  // The client end.

  /** Nothing is sent when the data does not encode. */
  method ProxySetPasteData(service: PasteboardService, caller: Caller, pasteData: PasteData, garble: Garble)
    requires service.Valid()
    modifies service`dataHistory, service`clips, service`rounds, service.adapter
    ensures service.Valid()
    ensures service.Abstract()
            == if Encodable(pasteData.records)
               then Step(old(service.Abstract()), Set(caller, Decode(garble, Encode(pasteData.records)).value))
               else old(service.Abstract())
    ensures TelemetryOf(service.adapter)
            == if Encodable(pasteData.records)
               then TelemetryAfter(old(TelemetryOf(service.adapter)), old(service.Abstract()),
                                   Set(caller, Decode(garble, Encode(pasteData.records)).value))
               else old(TelemetryOf(service.adapter))
  {
    hide Encode, Decode, Encodable, Step, TelemetryAfter;
    var data := new Parcel(garble);
    var written := WritePasteData(data, pasteData);
    if !written {
      return;
    }
    assert data.Unread() == Sent(pasteData.records);
    assert data.Unread()[1..] == Encode(pasteData.records);
    var code := OnSetPasteData(service, caller, data);
  }

  method ProxyGetPasteData(service: PasteboardService, caller: Caller, pasteData: PasteData, garble: Garble)
    returns (ok: bool)
    requires service.Valid()
    modifies service`dataHistory, service.adapter, pasteData
    ensures service.Valid() && service.Abstract() == Step(old(service.Abstract()), Get(caller))
    ensures TelemetryOf(service.adapter)
            == TelemetryAfter(old(TelemetryOf(service.adapter)), old(service.Abstract()), Get(caller))
    ensures var delivered := Delivered(garble, old(service.Abstract()), caller.user);
            ok == delivered.Some? && pasteData.Value() == (if ok then delivered.value else old(pasteData.Value()))
  {
    hide Encode, Decode, Encodable, Step, GetReply, TelemetryAfter;
    var reply := new Parcel(garble);
    var code := OnGetPasteData(service, caller, reply);
    if code != ERR_OK {
      return false;
    }
    ghost var clip := GetReply(old(service.Abstract()), caller.user).value;
    assert reply.Unread() == Sent(clip.records);
    assert reply.Unread()[1..] == Encode(clip.records);
    var pasteInfo := ReadPasteData(reply);
    pasteData.CopyFrom(pasteInfo.Value());
    return true;
  }

  method ProxyHasPasteData(service: PasteboardService, user: int, garble: Garble) returns (has: bool)
    requires service.Valid()
    ensures has <==> GetReply(service.Abstract(), user).Some?
  {
    hide HiViewAdapter.Valid;
    var reply := new Parcel(garble);
    var code := OnHasPasteData(service, user, reply);
    assert reply.Unread() == [Word(if GetReply(service.Abstract(), user).Some? then 1 else 0)];
    var answer := reply.ReadUint32();
    has := answer != 0;
  }

  // What arrives.

  /** What a get delivers to a client in a given state of the service. */
  ghost function Delivered(g: Garble, s: State, user: int): Option<Contents>
  {
    var clip := GetReply(s, user);
    if clip.Some? && Encodable(clip.value.records) then Some(Decode(g, Encode(clip.value.records)).value) else None
  }

  lemma ReceivedIsDecoded(g: Garble, ts: seq<Token>)
    ensures Received(g, ts).Some? ==> Decoded(Received(g, ts).value) && Measurable(Received(g, ts).value)
  {
    hide Decode;
    DecodedAlwaysWellFormed(g, ReadWord(g, ts).rest);
  }

  /** Every set of the sequence came through the stub. */
  ghost predicate ThroughStub(calls: seq<Call>)
  {
    forall i :: 0 <= i < |calls| && calls[i].Set? ==> Decoded(calls[i].data)
  }

  lemma {:induction false} StoredClipsAreDecoded(calls: seq<Call>, user: int)
    requires ThroughStub(calls)
    ensures ClipFor(calls, user).Some? ==> Decoded(ClipFor(calls, user).value)
    decreases |calls|
  {
    if calls != [] {
      StoredClipsAreDecoded(calls[..|calls| - 1], user);
    }
  }

  /**
   A get never fails on encoding: whatever token streams the sets arrived as, a client receives data
   exactly when its user has a clip, and then the stored records in reverse.
   */
  lemma GetDeliversStoredClip(calls: seq<Call>, user: int, g: Garble)
    requires ThroughStub(calls)
    ensures var clip := ClipFor(calls, user);
            Delivered(g, StateAfter(calls), user)
            == if clip.None? then None else Some(Refreshed(Reverse(clip.value.records)))
  {
    hide Decode, Encode, Encodable, Decoded;
    TraceRefinement(calls, user);
    StoredClipsAreDecoded(calls, user);
    var clip := ClipFor(calls, user);
    if clip.Some? {
      DecodedReencodes(g, clip.value, []);
      assert Encode(clip.value.records) + [] == Encode(clip.value.records);
    }
  }

  /** The calls neither set nor clear the clip of this user. */
  ghost predicate LeavesClip(calls: seq<Call>, user: int)
  {
    forall i :: 0 <= i < |calls| ==>
                  !(calls[i].Set? && calls[i].caller.user == user) && !(calls[i].Clear? && calls[i].user == user)
  }

  lemma {:induction false} ClipSurvives(calls: seq<Call>, later: seq<Call>, user: int)
    requires LeavesClip(later, user)
    ensures ClipFor(calls + later, user) == ClipFor(calls, user)
    decreases |later|
  {
    if later == [] {
      assert calls + later == calls;
    } else {
      assert (calls + later)[..|calls + later| - 1] == calls + later[..|later| - 1];
      assert (calls + later)[|calls + later| - 1] == later[|later| - 1];
      ClipSurvives(calls, later[..|later| - 1], user);
    }
  }

  /**
   End to end: after a client sent a list of null slots and complete records, and whatever calls came
   before and after it as long as that user neither set nor cleared again, a get delivers the last
   128 of the records sent, in their original order and canonical form. (A list of 2^32 slots or more
   loses what is beyond its 32-bit length.)
   */
  lemma EndToEnd(before: seq<Call>, caller: Caller, records: seq<Option<Record>>, later: seq<Call>, g1: Garble, g2: Garble)
    requires caller.user != ERROR_USERID && LeavesClip(later, caller.user)
    requires Encodable(records) && AllCarried(records[..SentLength(records)])
    ensures var stored := Decode(g1, Encode(records)).value;
            Delivered(g2, StateAfter(before + [Set(caller, stored)] + later), caller.user)
            == Some(Refreshed(Somes(Last(MAX_RECORD_NUM, Payloads(records[..SentLength(records)])))))
  {
    hide Decode, Encode, Encodable, Payloads, Last, StateAfter, Step, AllCarried, SentLength, Refreshed;
    var stored := Decode(g1, Encode(records)).value;
    var calls := before + [Set(caller, stored)];
    TraceRefinement(calls + later, caller.user);
    ClipSurvives(calls, later, caller.user);
    assert calls[|calls| - 1] == Set(caller, stored);
    TwoTrips(g1, g2, records, [], []);
    assert Encode(records) + [] == Encode(records);
    assert Encode(stored.records) + [] == Encode(stored.records);
  }

  /** The record is of one of the four types, by name, and has the payload of that type. */
  ghost predicate HasItsPayload(r: Record)
  {
    (r.mimeType == "text/html" && r.htmlText.Some?) || (r.mimeType == "text/plain" && r.plainText.Some?)
    || (r.mimeType == "text/uri" && r.uri.Some?) || (r.mimeType == "text/want" && r.want.Some?)
  }

  /** `b` is `a` with the payload of its type and without the others. */
  ghost predicate SamePayload(a: Record, b: Record)
  {
    a.mimeType == b.mimeType
    && b.htmlText == (if a.mimeType == "text/html" then a.htmlText else None)
    && b.plainText == (if a.mimeType == "text/plain" then a.plainText else None)
    && b.uri == (if a.mimeType == "text/uri" then a.uri else None)
    && b.want == (if a.mimeType == "text/want" then a.want else None)
  }

  lemma CanonicalKeepsPayload(r: Record)
    ensures SamePayload(r, r.Canonical())
    ensures HasItsPayload(r) ==> r.Complete() && r.KnownMimeType()
  {
  }

  lemma {:induction false} PayloadsOfFull(records: seq<Option<Record>>)
    requires forall i :: 0 <= i < |records| ==> records[i].Some? && HasItsPayload(records[i].value)
    ensures |Payloads(records)| == |records|
            && forall i :: 0 <= i < |records| ==> SamePayload(records[i].value, Payloads(records)[i])
    ensures AllCarried(records) && Encodable(records)
  {
    hide HasItsPayload, SamePayload, Record.Complete, Record.KnownMimeType, Record.Canonical;
    forall i | 0 <= i < |records|
      ensures records[i].value.Complete() && records[i].value.KnownMimeType()
    {
      CanonicalKeepsPayload(records[i].value);
    }
    if records != [] {
      PayloadsOfFull(records[1..]);
      CanonicalKeepsPayload(records[0].value);
      var payloads := Payloads(records);
      assert payloads == [records[0].value.Canonical()] + Payloads(records[1..]);
      forall i | 0 <= i < |records|
        ensures SamePayload(records[i].value, payloads[i])
      {
        if i > 0 {
          assert records[1..][i - 1] == records[i] && payloads[i] == Payloads(records[1..])[i - 1];
        }
      }
    }
  }

  /**
   End to end, record by record: a list of fewer than 2^32 records, each with its payload, is delivered
   as its last 128 records, or all of them when there are fewer, in order and with those payloads.
   */
  lemma EveryRecordArrives(
    before: seq<Call>, caller: Caller, records: seq<Option<Record>>, later: seq<Call>, g1: Garble, g2: Garble)
    requires caller.user != -1 && LeavesClip(later, caller.user) && |records| < 0x1_0000_0000
    requires forall i :: 0 <= i < |records| ==> records[i].Some? && HasItsPayload(records[i].value)
    ensures Encodable(records)
    ensures var stored := Decode(g1, Encode(records)).value;
            var delivered := Delivered(g2, StateAfter(before + [Set(caller, stored)] + later), caller.user);
            var from := if |records| < 128 then 0 else |records| - 128;
            delivered.Some? && |delivered.value.records| == |records| - from
            && forall i :: 0 <= i < |records| - from ==>
                             delivered.value.records[i].Some?
                             && SamePayload(records[from + i].value, delivered.value.records[i].value)
  {
    hide HasItsPayload, SamePayload, Decode, Encode, Encodable, AllCarried, Payloads, Delivered, StateAfter, Refreshed;
    PayloadsOfFull(records);
    assert records[..SentLength(records)] == records;
    EndToEnd(before, caller, records, later, g1, g2);
    var from := if |records| < 128 then 0 else |records| - 128;
    var survivors := Last(MAX_RECORD_NUM, Payloads(records));
    assert forall i :: 0 <= i < |survivors| ==> survivors[i] == Payloads(records)[from + i];
    assert Refreshed(Somes(survivors)).records == Somes(survivors) by { RefreshedRecords(Somes(survivors)); }
  }

  lemma RefreshedRecords(records: seq<Option<Record>>)
    ensures Refreshed(records).records == records
  {
  }

  /**
   Size telemetry sees through the reversal: the size the service measures for a set, from its last
   record, is the text length of the first record the client sent that was not cut, 0 for none.
   */
  lemma MeasuredSizeIsOfFrontRecord(g: Garble, records: seq<Option<Record>>)
    requires Encodable(records) && AllCarried(records[..SentLength(records)])
    ensures var survivors := Last(MAX_RECORD_NUM, Payloads(records[..SentLength(records)]));
            GetDataSize(Decode(g, Encode(records)).value)
            == if survivors == [] then 0 else |survivors[0].ConvertToText()|
  {
    hide Decode, Encode, Payloads, Last, AllCarried, SentLength, MimesOf;
    OneTrip(g, records, []);
    assert Encode(records) + [] == Encode(records);
  }

  /**
   What a set reports: it is a report of state 0, the class of the text length of the first record the
   client sent that was not cut (0 for none), and the class of the time it took, in 64 bits.
   */
  lemma SetReportsFrontRecord(g: Garble, s: State, caller: Caller, records: seq<Option<Record>>)
    requires Encodable(records) && AllCarried(records[..SentLength(records)])
    ensures var survivors := Last(128, Payloads(records[..|records| % 0x1_0000_0000]));
            var size := if survivors == [] then 0 else |survivors[0].ConvertToText()|;
            StatOf(s, Set(caller, Decode(g, Encode(records)).value))
            == Some(Stat(0, CalculateData(size), CalculateTime((caller.end - caller.start) % 0x1_0000_0000_0000_0000)))
  {
    hide Decode, Encode, Encodable, Payloads, AllCarried, CalculateData, CalculateTime, Record.ConvertToText;
    MeasuredSizeIsOfFrontRecord(g, records);
  }
}
