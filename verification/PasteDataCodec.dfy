/**
 The wire form of a record list, its decoder, and the transport theorems about the two.

 Encoding goes front to back; decoding adds each record at the front, so one trip reverses the list
 and keeps only the last 128 records that were written.
 */
module PasteDataCodec {
  import opened Wrappers
  import opened Sequences
  import opened Parcels
  import opened PasteDataRecords
  import opened PasteDataModel

  predicate EncodableItem(item: Option<Record>)
  {
    item.Some? ==> item.value.KnownMimeType()
  }

  ghost predicate Encodable(records: seq<Option<Record>>)
  {
    forall i :: 0 <= i < |records| ==> EncodableItem(records[i])
  }

  /** A list is refused only for a MIME type that is none of the four. */
  lemma EncodableByName(records: seq<Option<Record>>)
    ensures Encodable(records)
            <==> forall i :: 0 <= i < |records| && records[i].Some? ==>
                               var mime := records[i].value.mimeType;
                               mime == "text/html" || mime == "text/plain" || mime == "text/uri" || mime == "text/want"
  {
    forall i | 0 <= i < |records| && records[i].Some?
      ensures EncodableItem(records[i])
              <==> var mime := records[i].value.mimeType;
                   mime == "text/html" || mime == "text/plain" || mime == "text/uri" || mime == "text/want"
    {
      KnownTypesByName(records[i].value);
    }
  }

  /** `WriteParcelable` on one slot. */
  function ItemTokens(item: Option<Record>): seq<Token>
  {
    if item.None? then [Word(0)] else [Word(1)] + RecordTokens(item.value)
  }

  /** The slots in order, stopping after the first one that fails. */
  function ListTokens(records: seq<Option<Record>>): seq<Token>
  {
    if records == [] then []
    else if EncodableItem(records[0]) then ItemTokens(records[0]) + ListTokens(records[1..])
    else ItemTokens(records[0])
  }

  lemma ListTokensFrom(records: seq<Option<Record>>, i: nat)
    requires i <= |records|
    ensures i == |records| ==> ListTokens(records[i..]) == []
    ensures i < |records| ==>
              ListTokens(records[i..])
              == ItemTokens(records[i]) + (if EncodableItem(records[i]) then ListTokens(records[i + 1..]) else [])
  {
    hide ItemTokens, EncodableItem;
    if i < |records| {
      assert records[i..][0] == records[i] && records[i..][1..] == records[i + 1..];
    }
  }

  /** The length goes out as 32 bits, whatever the size of the vector. */
  function SentLength(records: seq<Option<Record>>): uint32
  {
    |records| % WORD_RANGE
  }

  function Encode(records: seq<Option<Record>>): seq<Token>
  {
    [Word(SentLength(records))] + ListTokens(records)
  }

  function ReadItem(g: Garble, ts: seq<Token>): Read<Option<Record>>
  {
    var marker := ReadWord(g, ts);
    if marker.value == 0 then Read(None, marker.rest) else ReadRecord(g, marker.rest)
  }

  /** `n` rounds of the decoding loop. */
  function DecodeLoop(g: Garble, n: nat, ts: seq<Token>, c: Contents): Read<Contents>
    decreases n
  {
    if n == 0 then Read(c, ts)
    else
      var item := ReadItem(g, ts);
      DecodeLoop(g, n - 1, item.rest, Added(c, item.value))
  }

  lemma DecodeLoopRound(g: Garble, n: nat, ts: seq<Token>, c: Contents)
    ensures n == 0 ==> DecodeLoop(g, n, ts, c) == Read(c, ts)
    ensures n > 0 ==>
              DecodeLoop(g, n, ts, c) == DecodeLoop(g, n - 1, ReadItem(g, ts).rest, Added(c, ReadItem(g, ts).value))
  {
    hide ReadItem, Added;
  }

  function Decode(g: Garble, ts: seq<Token>): Read<Contents>
  {
    var length := ReadWord(g, ts);
    DecodeLoop(g, length.value, length.rest, EMPTY)
  }

  /** What a decoded object always looks like. */
  ghost predicate Decoded(c: Contents)
  {
    |c.records| <= MAX_RECORD_NUM
    && (forall i :: 0 <= i < |c.records| ==> c.records[i].Some? && c.records[i].value.IsCanonical())
    && InStep(c)
  }

  lemma {:induction false} DecodeLoopKeepsShape(g: Garble, n: nat, ts: seq<Token>, c: Contents)
    requires Decoded(c)
    ensures Decoded(DecodeLoop(g, n, ts, c).value)
    decreases n
  {
    if n > 0 {
      var item := ReadItem(g, ts);
      DecodedRecordIsCanonical(g, ReadWord(g, ts).rest);
      DecodeLoopKeepsShape(g, n - 1, item.rest, Added(c, item.value));
    }
  }

  /**
   For an arbitrary token stream, read by any parcel: at most 128 records, none null, each of a
   known MIME type with just its own payload, and the MIME cache in step. So every getter can be
   called on it, for every type.
   */
  lemma DecodedAlwaysWellFormed(g: Garble, ts: seq<Token>)
    ensures Decoded(Decode(g, ts).value)
    ensures NoNulls(Decode(g, ts).value.records) && forall mime :: ScanSafe(Decode(g, ts).value.records, mime)
  {
    forall mime
      ensures NoNulls(Decode(g, ts).value.records) ==> ScanSafe(Decode(g, ts).value.records, mime)
    {
      if NoNulls(Decode(g, ts).value.records) {
        NoNullsScanSafe(Decode(g, ts).value.records, mime);
      }
    }
    var length := ReadWord(g, ts);
    DecodeLoopKeepsShape(g, length.value, length.rest, EMPTY);
  }

  /** A slot the codec carries faithfully: null, or a complete record. */
  predicate Carried(item: Option<Record>)
  {
    item.Some? ==> item.value.Complete()
  }

  ghost predicate AllCarried(records: seq<Option<Record>>)
  {
    forall i :: 0 <= i < |records| ==> Carried(records[i])
  }

  /** The canonical forms of the non-null records, in order. */
  ghost function Payloads(records: seq<Option<Record>>): seq<Record>
  {
    if records == [] then []
    else (if records[0].None? then [] else [records[0].value.Canonical()]) + Payloads(records[1..])
  }

  /** The object that holds `rs` after they were added in order. */
  function Holding(rs: seq<Record>): Contents
  {
    Refreshed(Window(rs))
  }

  lemma HoldingNothing()
    ensures Holding([]) == EMPTY
  {
  }

  lemma ItemRoundTrip(g: Garble, item: Option<Record>, rest: seq<Token>)
    requires Carried(item)
    ensures ReadItem(g, ItemTokens(item) + rest)
            == Read(if item.None? then None else Some(item.value.Canonical()), rest)
  {
    var ts := ItemTokens(item) + rest;
    if item.Some? {
      assert ts[1..] == RecordTokens(item.value) + rest;
      RecordRoundTripIff(g, item.value, rest);
    }
  }

  /** The decoding loop, run over the slots it was written from, in the middle of a stream. */
  lemma {:induction false} DecodeLoopInverts(g: Garble, records: seq<Option<Record>>, rest: seq<Token>, had: seq<Record>)
    requires AllCarried(records)
    ensures DecodeLoop(g, |records|, ListTokens(records) + rest, Holding(had))
            == Read(Holding(had + Payloads(records)), rest)
    decreases |records|
  {
    hide ReadItem, ItemTokens, Window, Pushed, MimesOf;
    if records == [] {
      assert had + Payloads(records) == had;
      assert ListTokens(records) + rest == rest;
    } else {
      var item, others := records[0], records[1..];
      var tail := ListTokens(others) + rest;
      assert ListTokens(records) + rest == ItemTokens(item) + tail;
      ItemRoundTrip(g, item, tail);
      if item.None? {
        DecodeLoopInverts(g, others, rest, had);
        assert Payloads(records) == Payloads(others);
      } else {
        var r := item.value.Canonical();
        PushExtendsWindow(had, r);
        DecodeLoopInverts(g, others, rest, had + [r]);
        assert had + Payloads(records) == had + [r] + Payloads(others);
      }
    }
  }

  lemma {:induction false} ListTokensSplit(records: seq<Option<Record>>, m: nat)
    requires Encodable(records) && m <= |records|
    ensures ListTokens(records) == ListTokens(records[..m]) + ListTokens(records[m..])
    decreases |records|
  {
    if m == 0 {
      assert records[m..] == records;
    } else {
      ListTokensSplit(records[1..], m - 1);
      assert records[1..][..m - 1] == records[..m][1..];
      assert records[1..][m - 1..] == records[m..];
      assert ListTokens(records)
          == ItemTokens(records[0]) + (ListTokens(records[..m][1..]) + ListTokens(records[m..]));
    }
  }

  /**
   One trip. The decoder rebuilds the first `SentLength` slots: nulls are gone, every record is
   canonical, the order is reversed, and only the last 128 survive. Slots beyond the 32-bit length
   stay unread in front of whatever follows.
   */
  lemma OneTrip(g: Garble, records: seq<Option<Record>>, rest: seq<Token>)
    requires Encodable(records) && AllCarried(records[..SentLength(records)])
    ensures var sent := SentLength(records);
            Decode(g, Encode(records) + rest)
            == Read(Holding(Payloads(records[..sent])), ListTokens(records[sent..]) + rest)
    ensures var sent := SentLength(records);
            Holding(Payloads(records[..sent])).records
            == Somes(Reverse(Last(MAX_RECORD_NUM, Payloads(records[..sent]))))
    ensures SentLength(records) == |records| % 0x1_0000_0000
  {
    hide ReadItem, ItemTokens, Window, MimesOf, DecodeLoop, ListTokens, Payloads, Reverse, Last;
    assert Holding([]) == EMPTY by { HoldingNothing(); }
    var sent := SentLength(records);
    var ts := Encode(records) + rest;
    var tail := ListTokens(records[sent..]) + rest;
    ListTokensSplit(records, sent);
    assert ts[1..] == ListTokens(records[..sent]) + tail;
    DecodeLoopInverts(g, records[..sent], tail, []);
    assert [] + Payloads(records[..sent]) == Payloads(records[..sent]);
    assert Window(Payloads(records[..sent])) == Somes(Reverse(Last(MAX_RECORD_NUM, Payloads(records[..sent])))) by {
      WindowIsReversedLast(Payloads(records[..sent]));
    }
  }

  lemma {:induction false} PayloadsOfCanonical(rs: seq<Record>)
    requires forall i :: 0 <= i < |rs| ==> rs[i].IsCanonical()
    ensures Payloads(Somes(rs)) == rs
    decreases |rs|
  {
    if rs != [] {
      PayloadsOfCanonical(rs[1..]);
      assert Somes(rs)[1..] == Somes(rs[1..]);
    }
  }

  lemma ShortListIsItsLast(rs: seq<Record>)
    requires |rs| <= MAX_RECORD_NUM
    ensures Last(MAX_RECORD_NUM, rs) == rs
  {
  }

  /** Decoding an encoded decoded object reverses its records; it is always encodable. */
  lemma DecodedReencodes(g: Garble, c: Contents, rest: seq<Token>)
    requires Decoded(c)
    ensures Encodable(c.records)
    ensures Decode(g, Encode(c.records) + rest) == Read(Refreshed(Reverse(c.records)), rest)
  {
    hide Decode, Encode, Window, MimesOf, Payloads, Last;
    var rs := seq(|c.records|, i requires 0 <= i < |c.records| => c.records[i].value);
    assert c.records == Somes(rs);
    PayloadsOfCanonical(rs);
    OneTrip(g, c.records, rest);
    assert c.records[..|c.records|] == c.records && c.records[|c.records|..] == [];
    assert ListTokens([]) + rest == rest;
    assert Last(MAX_RECORD_NUM, rs) == rs by { ShortListIsItsLast(rs); }
    assert Holding(rs).records == Somes(Reverse(rs));
    assert Somes(Reverse(rs)) == Reverse(c.records);
  }

  /** `decode(encode(decode(s)))` is `decode(s)` in reverse, for any stream and any parcels. */
  lemma ReencodingReverses(g1: Garble, g2: Garble, ts: seq<Token>, rest: seq<Token>)
    ensures var c := Decode(g1, ts).value;
            Decode(g2, Encode(c.records) + rest) == Read(Refreshed(Reverse(c.records)), rest)
  {
    DecodedAlwaysWellFormed(g1, ts);
    DecodedReencodes(g2, Decode(g1, ts).value, rest);
  }

  /**
   Two trips, as in a set followed by a get: the last 128 of the records sent come back in their
   original order. The reversals cancel, and only the first trip can cut.
   */
  lemma TwoTrips(g1: Garble, g2: Garble, records: seq<Option<Record>>, rest1: seq<Token>, rest2: seq<Token>)
    requires Encodable(records) && AllCarried(records[..SentLength(records)])
    ensures var stored := Decode(g1, Encode(records) + rest1).value;
            Encodable(stored.records)
            && Decode(g2, Encode(stored.records) + rest2)
               == Read(Refreshed(Somes(Last(MAX_RECORD_NUM, Payloads(records[..SentLength(records)])))), rest2)
  {
    hide Decode, Encode, Window, MimesOf, Payloads, Decoded;
    OneTrip(g1, records, rest1);
    var stored := Decode(g1, Encode(records) + rest1).value;
    DecodedAlwaysWellFormed(g1, Encode(records) + rest1);
    DecodedReencodes(g2, stored, rest2);
    var survivors := Last(MAX_RECORD_NUM, Payloads(records[..SentLength(records)]));
    assert Reverse(Somes(Reverse(survivors))) == Somes(survivors);
  }

  // Exactly which lists survive one trip.

  /** What a faithful trip delivers: the records sent, canonical, in reverse, the last 128 of them. */
  ghost function Expected(records: seq<Option<Record>>): Contents
  {
    Holding(Payloads(records[..SentLength(records)]))
  }

  /**
   An incomplete record among the last 128 sent never arrives, with no parcel and in front of no
   continuation: the decoder has no record without its payload to give.
   */
  lemma IncompleteNeverArrives(g: Garble, records: seq<Option<Record>>, rest: seq<Token>, i: nat)
    requires var survivors := Last(MAX_RECORD_NUM, Payloads(records[..SentLength(records)]));
             i < |survivors| && !survivors[i].Complete()
    ensures Decode(g, Encode(records) + rest).value != Expected(records)
  {
    hide Decode, Encode, Payloads, Last, MimesOf;
    var survivors := Last(MAX_RECORD_NUM, Payloads(records[..SentLength(records)]));
    WindowIsReversedLast(Payloads(records[..SentLength(records)]));
    DecodedAlwaysWellFormed(g, Encode(records) + rest);
    assert Expected(records).records[|survivors| - 1 - i] == Some(survivors[i]);
  }

  lemma {:induction false} PayloadsCompleteIff(records: seq<Option<Record>>)
    ensures AllCarried(records)
            <==> AllComplete(Payloads(records))
  {
    hide AllCarried, AllComplete;
    if records == [] {
      NothingIncomplete();
    } else {
      var head, others := records[0], records[1..];
      PayloadsCompleteIff(others);
      CarriedPrepend(records);
      if head.Some? {
        CanonicalCompleteIff(head.value);
        CompletePrepend(head.value.Canonical(), Payloads(others));
      } else {
        assert Payloads(records) == Payloads(others);
      }
    }
  }

  ghost predicate AllComplete(rs: seq<Record>)
  {
    forall i :: 0 <= i < |rs| ==> rs[i].Complete()
  }

  lemma NothingIncomplete()
    ensures AllCarried([]) && AllComplete([])
  {
  }

  lemma CarriedPrepend(records: seq<Option<Record>>)
    requires records != []
    ensures AllCarried(records) <==> Carried(records[0]) && AllCarried(records[1..])
  {
    hide Carried;
    assert records == [records[0]] + records[1..];
    if AllCarried(records) {
      assert forall k :: 0 <= k < |records[1..]| ==> records[k + 1] == records[1..][k];
    }
  }

  lemma CompletePrepend(r: Record, rs: seq<Record>)
    ensures AllComplete([r] + rs) <==> r.Complete() && AllComplete(rs)
  {
    hide Record.Complete;
    if AllComplete([r] + rs) {
      assert ([r] + rs)[0] == r;
      assert forall k :: 0 <= k < |rs| ==> ([r] + rs)[k + 1] == rs[k];
    }
  }

  lemma CanonicalCompleteIff(r: Record)
    ensures r.Canonical().Complete() <==> r.Complete()
  {
  }

  /**
   For up to 128 records sent, and for each parcel and continuation by itself: they all arrive if and
   only if each of them carries its payload, and then exactly what was not sent is left unread.
   */
  lemma ShortTripFaithfulIff(g: Garble, records: seq<Option<Record>>, rest: seq<Token>)
    requires Encodable(records) && |Payloads(records[..SentLength(records)])| <= MAX_RECORD_NUM
    ensures Decode(g, Encode(records) + rest).value == Expected(records)
            <==> AllCarried(records[..SentLength(records)])
    ensures AllCarried(records[..SentLength(records)]) ==>
              Decode(g, Encode(records) + rest).rest == ListTokens(records[SentLength(records)..]) + rest
  {
    hide Decode, Encode, Encodable, Payloads, MimesOf, Record.Complete, AllCarried;
    var sent := SentLength(records);
    var payloads := Payloads(records[..sent]);
    PayloadsCompleteIff(records[..sent]);
    if AllCarried(records[..sent]) {
      OneTrip(g, records, rest);
    } else {
      var i :| 0 <= i < |payloads| && !payloads[i].Complete();
      ShortListIsItsLast(payloads);
      IncompleteNeverArrives(g, records, rest, i);
    }
  }

  /** A trip that works with every parcel and in front of every continuation. */
  ghost predicate TripFaithful(records: seq<Option<Record>>)
  {
    var sent := SentLength(records);
    forall g: Garble, rest: seq<Token> ::
      Decode(g, Encode(records) + rest)
      == Read(Expected(records), ListTokens(records[sent..]) + rest)
  }

  /** The parcel on which an ill-typed read yields nothing and swallows all that is left. */
  ghost function Swallow(ts: seq<Token>): Misread
  {
    Misread(0, "", None, None, |ts|)
  }

  lemma RecordNeverGrows(g: Garble, ts: seq<Token>)
    ensures |ReadRecord(g, ts).rest| <= |ts|
  {
    hide ReadText, ReadUri, ReadWant;
    ReadsNeverGrow(g, ts);
    ReadsNeverGrow(g, ReadText(g, ts).rest);
  }

  lemma ItemNeverGrows(g: Garble, ts: seq<Token>)
    ensures |ReadItem(g, ts).rest| <= |ts|
  {
    hide ReadWord, ReadRecord;
    ReadsNeverGrow(g, ts);
    RecordNeverGrows(g, ReadWord(g, ts).rest);
  }

  lemma {:induction false} RestNeverGrows(g: Garble, n: nat, ts: seq<Token>, c: Contents)
    ensures |DecodeLoop(g, n, ts, c).rest| <= |ts|
    decreases n
  {
    hide ReadItem, Added;
    if n > 0 {
      ItemNeverGrows(g, ts);
      RestNeverGrows(g, n - 1, ReadItem(g, ts).rest, Added(c, ReadItem(g, ts).value));
    }
  }

  /** What a slot looks like from outside: its marker, and a MIME type after a non-null one. */
  ghost predicate StartsSlot(ts: seq<Token>)
  {
    ts != [] && (ts[0] == Word(0) || (ts[0] == Word(1) && |ts| > 1 && ts[1].Str?))
  }

  lemma EverySlotStarts(records: seq<Option<Record>>, next: seq<Token>)
    requires Encodable(records) && StartsSlot(next)
    ensures StartsSlot(ListTokens(records) + next)
    ensures records != [] && records[0].Some? ==> (ListTokens(records) + next)[0] == Word(1)
    ensures records != [] && records[0].None? ==>
              (ListTokens(records) + next)[1..] == ListTokens(records[1..]) + next
  {
    hide RecordTokens;
    if records == [] {
      assert ListTokens(records) + next == next;
    } else {
      var tail := ListTokens(records[1..]) + next;
      assert ListTokens(records) + next == ItemTokens(records[0]) + tail;
      hide ListTokens, Encodable;
      if records[0].Some? {
        RecordHasTokens(records[0].value);
        assert (ItemTokens(records[0]) + tail)[1] == RecordTokens(records[0].value)[0];
      }
    }
  }

  /**
   An incomplete record, or one round too many, makes the decoder overrun into the slot that follows
   the list.
   */
  lemma {:induction false} IncompleteOverruns(records: seq<Option<Record>>, n: nat, c: Contents, next: seq<Token>)
    requires Encodable(records) && StartsSlot(next)
    requires n >= |records| && (n > |records| || !AllCarried(records))
    ensures |DecodeLoop(Swallow, n, ListTokens(records) + next, c).rest| < |next|
    decreases |records|
  {
    hide ReadRecord, RecordTokens, Refreshed, Pushed, SentAsParcelable;
    var ts := ListTokens(records) + next;
    var item := ReadItem(Swallow, ts);
    var c' := Added(c, item.value);
    RestNeverGrows(Swallow, n - 1, item.rest, c');
    if records == [] {
      assert ts == next;
      RecordNeverGrows(Swallow, next[1..]);
    } else {
      var head, others := records[0], records[1..];
      var tail := ListTokens(others) + next;
      assert ts == ItemTokens(head) + tail;
      if Carried(head) {
        ItemRoundTrip(Swallow, head, tail);
        assert n - 1 > |others| || !AllCarried(others);
        IncompleteOverruns(others, n - 1, c', next);
      } else {
        EverySlotStarts(others, next);
        IncompleteItem(head.value, tail);
        if others == [] {
          assert tail == next;
        } else if item.rest != [] {
          IncompleteOverruns(others[1..], n - 1, c', next);
        }
      }
    }
  }

  /** Uris and Wants travel as parcelable objects, behind a marker of their own. */
  predicate SentAsParcelable(r: Record)
  {
    r.mimeType == MIMETYPE_TEXT_URI || r.mimeType == MIMETYPE_TEXT_WANT
  }

  /**
   Where an incomplete record leaves the decoder: a text payload is looked for in the next marker
   and swallows everything; a Uri or Want payload takes the next marker for its own, so it eats a
   null slot that follows and swallows everything else.
   */
  lemma IncompleteItem(r: Record, tail: seq<Token>)
    requires r.KnownMimeType() && !r.Complete() && StartsSlot(tail)
    ensures ReadItem(Swallow, ItemTokens(Some(r)) + tail).rest
            == if SentAsParcelable(r) && tail[0] == Word(0) then tail[1..] else []
  {
    hide ReadRecord, RecordTokens, SentAsParcelable;
    var ts := ItemTokens(Some(r)) + tail;
    IncompleteTokens(r);
    assert ts[0] == Word(1) && ts[1..] == [Str(r.mimeType)] + tail;
    IncompleteRead(r, tail);
  }

  lemma IncompleteTokens(r: Record)
    requires r.KnownMimeType() && !r.Complete()
    ensures RecordTokens(r) == [Str(r.mimeType)]
  {
  }

  lemma IncompleteRead(r: Record, tail: seq<Token>)
    requires r.KnownMimeType() && StartsSlot(tail)
    ensures ReadRecord(Swallow, [Str(r.mimeType)] + tail).rest
            == if SentAsParcelable(r) && tail[0] == Word(0) then tail[1..] else []
  {
    var ts := [Str(r.mimeType)] + tail;
    assert ReadText(Swallow, ts) == Read(r.mimeType, tail) by {
      assert ts[1..] == tail;
    }
    if tail[0] == Word(1) {
      assert tail[1..][0] == tail[1];
    }
  }

  /**
   A list of any size that encodes at all makes a faithful trip, whatever the parcel and whatever
   follows, exactly when each of the records sent carries its payload. Faithful means what `Expected`
   says, after the cuts to the 32-bit length and to 128 records, and that the continuation is left
   alone.
   */
  lemma TripFaithfulIff(records: seq<Option<Record>>)
    requires Encodable(records)
    ensures TripFaithful(records) <==> AllCarried(records[..SentLength(records)])
  {
    hide ReadRecord, Window, MimesOf, Payloads, ListTokens, DecodeLoop, Holding, AllCarried, StartsSlot;
    var sent := SentLength(records);
    var front, back := records[..sent], records[sent..];
    ListTokensSplit(records, sent);
    if AllCarried(front) {
      forall g: Garble, rest: seq<Token>
        ensures Decode(g, Encode(records) + rest) == Read(Holding(Payloads(front)), ListTokens(back) + rest)
      {
        OneTrip(g, records, rest);
      }
    } else {
      var rest := [Word(0)];
      var next := ListTokens(back) + rest;
      assert StartsSlot(next) by { SlotFollows(back); }
      assert (Encode(records) + rest)[1..] == ListTokens(front) + next;
      IncompleteOverruns(front, sent, EMPTY, next);
      assert |Decode(Swallow, Encode(records) + rest).rest| < |next|;
    }
  }

  lemma SlotFollows(records: seq<Option<Record>>)
    requires Encodable(records)
    ensures StartsSlot(ListTokens(records) + [Word(0)])
  {
    EverySlotStarts(records, [Word(0)]);
  }
}
