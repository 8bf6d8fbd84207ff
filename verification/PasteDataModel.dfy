/**
 The contents of a PasteData object as a value, what each mutator does to them, and what holds of
 every sequence of mutators.
 */
module PasteDataModel {
  import opened Wrappers
  import opened Sequences
  import opened Parcels
  import opened PasteDataRecords

  const MAX_RECORD_NUM := 128

  /** A slot is None where the record pointer is null; `mimeTypes` is the cached property. */
  datatype Contents = Contents(records: seq<Option<Record>>, mimeTypes: seq<string>)

  const EMPTY := Contents([], [])

  function MimeOf(slot: Option<Record>): seq<string>
  {
    if slot.None? then [] else [slot.value.mimeType]
  }

  /** The MIME types of the non-null records, in order. */
  function MimesOf(records: seq<Option<Record>>): seq<string>
  {
    if records == [] then [] else MimeOf(records[0]) + MimesOf(records[1..])
  }

  ghost predicate InStep(c: Contents)
  {
    c.mimeTypes == MimesOf(c.records)
  }

  ghost predicate NoNulls(records: seq<Option<Record>>)
  {
    forall i :: 0 <= i < |records| ==> records[i].Some?
  }

  function Refreshed(records: seq<Option<Record>>): Contents
  {
    Contents(records, MimesOf(records))
  }

  /** Insertion at the front; past 128 the one record at the back goes. */
  function Pushed(records: seq<Option<Record>>, r: Record): seq<Option<Record>>
  {
    var longer := [Some(r)] + records;
    if |longer| > MAX_RECORD_NUM then longer[..|longer| - 1] else longer
  }

  function Added(c: Contents, r: Option<Record>): Contents
  {
    if r.None? then c else Refreshed(Pushed(c.records, r.value))
  }

  /** What `RemoveRecordAt` does: it emplaces a null slot in front of slot `n`. */
  function NullInserted(records: seq<Option<Record>>, n: nat): seq<Option<Record>>
    requires n < |records|
  {
    records[..n] + [None] + records[n..]
  }

  datatype Mutator =
    | AddHtml(text: string)
    | AddText(text: string)
    | AddUri(uri: Uri)
    | AddWant(want: Option<Want>)
    | AddRecord(record: Option<Record>)
    | ReplaceRecordAt(number: nat, record: Option<Record>)
    | RemoveRecordAt(number: nat)
  {
    predicate IsAdd()
    {
      !ReplaceRecordAt? && !RemoveRecordAt?
    }

    /** The record an add offers, null when its text is over-long or it was null to begin with. */
    function Offered(): Option<Record>
      requires IsAdd()
    {
      match this
      case AddHtml(text) => NewHtmlRecord(text)
      case AddText(text) => NewPlaintTextRecord(text)
      case AddUri(uri) => NewUriRecord(uri)
      case AddWant(want) => NewWantRecord(want)
      case AddRecord(r) => r
    }

    /** Whether the call changes anything. */
    predicate Effective(c: Contents)
    {
      if IsAdd() then Offered().Some? else number < |c.records|
    }

    function Apply(c: Contents): Contents
    {
      if !Effective(c) then c
      else if IsAdd() then Added(c, Offered())
      else if ReplaceRecordAt? then Refreshed(c.records[number := record])
      else Refreshed(NullInserted(c.records, number))
    }
  }

  function Mutated(c: Contents, ops: seq<Mutator>): Contents
    decreases |ops|
  {
    if ops == [] then c else ops[|ops| - 1].Apply(Mutated(c, ops[..|ops| - 1]))
  }

  /** A replacement in range puts the record in its slot and touches no other; out of range it does nothing. */
  lemma ReplaceTouchesOneSlot(c: Contents, n: nat, r: Option<Record>)
    ensures n < |c.records| ==>
              var after := ReplaceRecordAt(n, r).Apply(c).records;
              |after| == |c.records| && after[n] == r
              && forall i :: 0 <= i < |c.records| && i != n ==> after[i] == c.records[i]
    ensures n >= |c.records| ==> ReplaceRecordAt(n, r).Apply(c) == c
  {
  }

  /** What an accepted add does to any list: the record goes in front, all others move back by one. */
  lemma AddMovesOthersBack(c: Contents, r: Record)
    ensures var after := AddRecord(Some(r)).Apply(c).records;
            after[0] == Some(r)
            && |after| == (if |c.records| < 128 then |c.records| + 1 else |c.records|)
            && forall i :: 1 <= i < |after| ==> after[i] == c.records[i - 1]
    ensures AddRecord(None).Apply(c) == c
  {
  }

  /** Without null slots the refreshed cache has the type of each record, in order. */
  lemma {:induction false} MimesInOrder(records: seq<Option<Record>>)
    requires NoNulls(records)
    ensures |MimesOf(records)| == |records|
            && forall i :: 0 <= i < |records| ==> MimesOf(records)[i] == records[i].value.mimeType
  {
    if records != [] {
      MimesInOrder(records[1..]);
      assert forall i :: 1 <= i < |records| ==> MimesOf(records)[i] == MimesOf(records[1..])[i - 1];
    }
  }

  /** Some mutator of the sequence took effect. */
  ghost predicate Touched(c: Contents, ops: seq<Mutator>)
    decreases |ops|
  {
    ops != [] && (Touched(c, ops[..|ops| - 1]) || ops[|ops| - 1].Effective(Mutated(c, ops[..|ops| - 1])))
  }

  /**
   The MIME cache over any sequence of mutators from any contents: once one of them took effect the
   cache is in step with the records, until then nothing has changed. So it is always in step from
   an empty object, and a list handed to the vector constructor keeps its stale empty cache exactly
   until the first effective mutator.
   */
  lemma {:induction false} MimeCacheAgreement(c: Contents, ops: seq<Mutator>)
    ensures if Touched(c, ops) then InStep(Mutated(c, ops)) else Mutated(c, ops) == c
    ensures InStep(c) ==> InStep(Mutated(c, ops))
    decreases |ops|
  {
    if ops != [] {
      MimeCacheAgreement(c, ops[..|ops| - 1]);
    }
  }

  lemma VectorConstructorStaleness(records: seq<Option<Record>>, ops: seq<Mutator>)
    ensures var c := Mutated(Contents(records, []), ops);
            InStep(c) <==> Touched(Contents(records, []), ops) || MimesOf(records) == []
  {
    MimeCacheAgreement(Contents(records, []), ops);
  }

  /** A list of one record given to the vector constructor: the cache misses its type. */
  lemma OneRecordVectorIsStale(r: Record)
    ensures !InStep(Contents([Some(r)], []))
  {
    assert |MimesOf([Some(r)])| == 1;
  }

  /** The records that a sequence of adds got accepted, oldest first. */
  ghost function Accepted(ops: seq<Mutator>): seq<Record>
    requires forall i :: 0 <= i < |ops| ==> ops[i].IsAdd()
    decreases |ops|
  {
    if ops == [] then []
    else
      var r := ops[|ops| - 1].Offered();
      Accepted(ops[..|ops| - 1]) + (if r.None? then [] else [r.value])
  }

  function Somes(rs: seq<Record>): seq<Option<Record>>
  {
    seq(|rs|, i requires 0 <= i < |rs| => Some(rs[i]))
  }

  /** The list that results from adding `rs` in order to an empty one. */
  function Window(rs: seq<Record>): seq<Option<Record>>
  {
    Somes(First(MAX_RECORD_NUM, Reverse(rs)))
  }

  lemma WindowIsReversedLast(rs: seq<Record>)
    ensures Window(rs) == Somes(Reverse(Last(MAX_RECORD_NUM, rs)))
  {
    FirstOfReverse(MAX_RECORD_NUM, rs);
  }

  lemma PushExtendsWindow(rs: seq<Record>, r: Record)
    ensures Pushed(Window(rs), r) == Window(rs + [r])
  {
    assert Reverse(rs + [r]) == [r] + Reverse(rs);
  }

  /**
   History refinement: after any sequence of adds from an empty object the list is the first 128
   entries of the reversed sequence of accepted adds, and the cache lists their MIME types.
   */
  lemma {:induction false} HistoryRefinement(ops: seq<Mutator>)
    requires forall i :: 0 <= i < |ops| ==> ops[i].IsAdd()
    ensures Mutated(EMPTY, ops) == Refreshed(Window(Accepted(ops)))
    decreases |ops|
  {
    if ops != [] {
      var before := ops[..|ops| - 1];
      HistoryRefinement(before);
      var r := ops[|ops| - 1].Offered();
      if r.Some? {
        PushExtendsWindow(Accepted(before), r.value);
      } else {
        assert Accepted(ops) == Accepted(before);
      }
    }
  }

  /** The same, slot by slot: the newest accepted record first, 128 of them at most. */
  lemma HistorySlotBySlot(ops: seq<Mutator>)
    requires forall i :: 0 <= i < |ops| ==> ops[i].IsAdd()
    ensures var records, accepted := Mutated(EMPTY, ops).records, Accepted(ops);
            |records| == (if |accepted| < 128 then |accepted| else 128)
            && forall i :: 0 <= i < |records| ==> records[i] == Some(accepted[|accepted| - 1 - i])
  {
    hide Mutated, Accepted, MimesOf;
    HistoryRefinement(ops);
  }

  /** The first record of the given MIME type, which is what the primary getters look for. */
  function FirstOfKind(records: seq<Option<Record>>, mime: string): Option<Record>
  {
    if records == [] then None
    else if records[0].Some? && records[0].value.mimeType == mime then records[0]
    else FirstOfKind(records[1..], mime)
  }

  /** The scan for `mime` dereferences no null slot: it finds a match before it meets one. */
  ghost predicate ScanSafe(records: seq<Option<Record>>, mime: string)
  {
    records == [] || (records[0].Some? && (records[0].value.mimeType == mime || ScanSafe(records[1..], mime)))
  }

  lemma {:induction false} FirstOfKindCharacterised(records: seq<Option<Record>>, mime: string)
    ensures match FirstOfKind(records, mime)
            case None => forall i :: 0 <= i < |records| && records[i].Some? ==> records[i].value.mimeType != mime
            case Some(r) =>
              r.mimeType == mime
              && exists k :: 0 <= k < |records| && records[k] == Some(r)
                             && forall i :: 0 <= i < k && records[i].Some? ==> records[i].value.mimeType != mime
  {
    if records != [] && !(records[0].Some? && records[0].value.mimeType == mime) {
      FirstOfKindCharacterised(records[1..], mime);
      if FirstOfKind(records, mime).Some? {
        var k :| 0 <= k < |records[1..]| && records[1..][k] == FirstOfKind(records, mime)
                 && forall i :: 0 <= i < k && records[1..][i].Some? ==> records[1..][i].value.mimeType != mime;
        assert records[k + 1] == FirstOfKind(records, mime);
        forall i | 0 <= i < k + 1 && records[i].Some?
          ensures records[i].value.mimeType != mime
        {
          if i > 0 {
            assert records[1..][i - 1] == records[i];
          }
        }
      }
    }
  }

  /**
   Each primary getter answers from the newest surviving record of its kind: after adds only, it is
   the latest of the last 128 accepted records with that MIME type, and there is none exactly when
   none of those 128 has it.
   */
  lemma PrimaryIsNewestSurvivor(ops: seq<Mutator>, mime: string)
    requires forall i :: 0 <= i < |ops| ==> ops[i].IsAdd()
    ensures var survivors := Last(MAX_RECORD_NUM, Accepted(ops));
            match FirstOfKind(Mutated(EMPTY, ops).records, mime)
            case None => forall i :: 0 <= i < |survivors| ==> survivors[i].mimeType != mime
            case Some(r) =>
              exists k :: 0 <= k < |survivors| && survivors[k] == r && r.mimeType == mime
                          && forall i :: k < i < |survivors| ==> survivors[i].mimeType != mime
    ensures NoNulls(Mutated(EMPTY, ops).records) && ScanSafe(Mutated(EMPTY, ops).records, mime)
  {
    GettersCallable(ops, mime);
    hide Accepted, Mutated, MimesOf, Reverse, Last, FirstOfKind, Somes;
    HistoryRefinement(ops);
    FirstOfReverse(MAX_RECORD_NUM, Accepted(ops));
    FirstOfReversedIsLast(Last(MAX_RECORD_NUM, Accepted(ops)), mime);
  }

  lemma FirstOfReversedIsLast(rs: seq<Record>, mime: string)
    ensures match FirstOfKind(Somes(Reverse(rs)), mime)
            case None => forall i :: 0 <= i < |rs| ==> rs[i].mimeType != mime
            case Some(r) =>
              exists k :: 0 <= k < |rs| && rs[k] == r && r.mimeType == mime
                          && forall i :: k < i < |rs| ==> rs[i].mimeType != mime
  {
    var records, n := Somes(Reverse(rs)), |rs|;
    assert forall i :: 0 <= i < n ==> records[n - 1 - i] == Some(rs[i]);
    FirstOfKindCharacterised(records, mime);
    hide FirstOfKind;
    if FirstOfKind(records, mime).Some? {
      var k :| 0 <= k < n && records[k] == FirstOfKind(records, mime)
               && forall i :: 0 <= i < k && records[i].Some? ==> records[i].value.mimeType != mime;
      assert rs[n - 1 - k] == FirstOfKind(records, mime).value;
      forall i | n - 1 - k < i < n
        ensures rs[i].mimeType != mime
      {
        assert records[n - 1 - i] == Some(rs[i]);
      }
    }
  }

  // What the getters answer, in terms of the arguments of the adds.

  /** The MIME type, by name, of the record an add brings. */
  ghost function TypeAdded(op: Mutator): string
    requires op.IsAdd()
  {
    match op
    case AddHtml(_) => "text/html"
    case AddText(_) => "text/plain"
    case AddUri(_) => "text/uri"
    case AddWant(_) => "text/want"
    case AddRecord(r) => if r.Some? then r.value.mimeType else ""
  }

  /** The record has the argument of the add as its payload. */
  ghost predicate CarriesArgument(r: Record, op: Mutator)
    requires op.IsAdd()
  {
    match op
    case AddHtml(text) => r.htmlText == Some(text)
    case AddText(text) => r.plainText == Some(text)
    case AddUri(uri) => r.uri == Some(uri)
    case AddWant(want) => r.want == want
    case AddRecord(record) => record == Some(r)
  }

  /** Not over-long and not null. */
  ghost predicate Acceptable(op: Mutator)
    requires op.IsAdd()
  {
    match op
    case AddHtml(text) => |text| < 512000
    case AddText(text) => |text| < 512000
    case AddUri(_) => true
    case AddWant(_) => true
    case AddRecord(r) => r.Some?
  }

  ghost function AcceptedAdds(ops: seq<Mutator>): (adds: seq<Mutator>)
    requires forall i :: 0 <= i < |ops| ==> ops[i].IsAdd()
    ensures forall i :: 0 <= i < |adds| ==> adds[i].IsAdd()
    decreases |ops|
  {
    if ops == [] then []
    else AcceptedAdds(ops[..|ops| - 1]) + (if Acceptable(ops[|ops| - 1]) then [ops[|ops| - 1]] else [])
  }

  lemma OfferCarriesArgument(op: Mutator)
    requires op.IsAdd()
    ensures op.Offered().Some? <==> Acceptable(op)
    ensures op.Offered().Some? ==>
              op.Offered().value.mimeType == TypeAdded(op) && CarriesArgument(op.Offered().value, op)
  {
  }

  lemma {:induction false} AcceptedRecordsCarryArguments(ops: seq<Mutator>)
    requires forall i :: 0 <= i < |ops| ==> ops[i].IsAdd()
    ensures var adds, records := AcceptedAdds(ops), Accepted(ops);
            |adds| == |records|
            && forall i :: 0 <= i < |adds| ==>
                             records[i].mimeType == TypeAdded(adds[i]) && CarriesArgument(records[i], adds[i])
    decreases |ops|
  {
    hide TypeAdded, CarriesArgument, Acceptable;
    if ops != [] {
      AcceptedRecordsCarryArguments(ops[..|ops| - 1]);
      OfferCarriesArgument(ops[|ops| - 1]);
    }
  }

  /**
   Each getter answers with the last argument added of its kind among the last 128 accepted adds; it
   finds nothing exactly when none of those is of its kind.
   */
  lemma GetterAnswersLastArgument(ops: seq<Mutator>, mime: string)
    requires forall i :: 0 <= i < |ops| ==> ops[i].IsAdd()
    ensures var adds := AcceptedAdds(ops); var from := if |adds| < 128 then 0 else |adds| - 128;
            match FirstOfKind(Mutated(EMPTY, ops).records, mime)
            case None => forall i :: from <= i < |adds| ==> TypeAdded(adds[i]) != mime
            case Some(r) =>
              exists k :: from <= k < |adds| && TypeAdded(adds[k]) == mime && CarriesArgument(r, adds[k])
                          && forall i :: k < i < |adds| ==> TypeAdded(adds[i]) != mime
  {
    hide Mutated, FirstOfKind, TypeAdded, CarriesArgument, Accepted, AcceptedAdds, Last, NoNulls, ScanSafe;
    AcceptedRecordsCarryArguments(ops);
    PrimaryIsNewestSurvivor(ops, mime);
    LatestSurvivorIsLatestAdd(AcceptedAdds(ops), Accepted(ops), mime, FirstOfKind(Mutated(EMPTY, ops).records, mime));
  }

  lemma LatestSurvivorIsLatestAdd(adds: seq<Mutator>, records: seq<Record>, mime: string, found: Option<Record>)
    requires |adds| == |records|
    requires forall i :: 0 <= i < |adds| ==>
                           adds[i].IsAdd() && records[i].mimeType == TypeAdded(adds[i]) && CarriesArgument(records[i], adds[i])
    requires var survivors := Last(MAX_RECORD_NUM, records);
             match found
             case None => forall i :: 0 <= i < |survivors| ==> survivors[i].mimeType != mime
             case Some(r) =>
               exists k :: 0 <= k < |survivors| && survivors[k] == r && r.mimeType == mime
                           && forall i :: k < i < |survivors| ==> survivors[i].mimeType != mime
    ensures var from := if |adds| < 128 then 0 else |adds| - 128;
            match found
            case None => forall i :: from <= i < |adds| ==> TypeAdded(adds[i]) != mime
            case Some(r) =>
              exists k :: from <= k < |adds| && TypeAdded(adds[k]) == mime && CarriesArgument(r, adds[k])
                          && forall i :: k < i < |adds| ==> TypeAdded(adds[i]) != mime
  {
    hide TypeAdded, CarriesArgument, Last;
    var survivors := Last(MAX_RECORD_NUM, records);
    LastByIndex(MAX_RECORD_NUM, records, 0);
    var from := |records| - |survivors|;
    var k: int := -1;
    if found.Some? {
      k :| 0 <= k < |survivors| && survivors[k] == found.value && found.value.mimeType == mime
           && forall i :: k < i < |survivors| ==> survivors[i].mimeType != mime;
      LastByIndex(MAX_RECORD_NUM, records, k);
      assert TypeAdded(adds[from + k]) == mime && CarriesArgument(found.value, adds[from + k]);
    }
    forall i | from + k < i < |adds|
      ensures TypeAdded(adds[i]) != mime
    {
      LastByIndex(MAX_RECORD_NUM, records, i - from);
    }
  }

  /** On any contents, an accepted add is what its getter finds next, and a refused one changes nothing. */
  lemma AddIsFoundByItsGetter(c: Contents, op: Mutator)
    requires op.IsAdd()
    ensures Acceptable(op) ==>
              var found := FirstOfKind(op.Apply(c).records, TypeAdded(op));
              found.Some? && CarriesArgument(found.value, op)
    ensures !Acceptable(op) ==> op.Apply(c) == c
  {
    hide TypeAdded, CarriesArgument, Acceptable;
    OfferCarriesArgument(op);
    if Acceptable(op) {
      assert op.Apply(c).records[0] == op.Offered();
    }
  }

  /** `HasMimeType(m)` holds exactly when `m` is in the refreshed cache. */
  lemma {:induction false} HasMimeTypeIffCached(records: seq<Option<Record>>, mime: string)
    ensures FirstOfKind(records, mime).Some? <==> mime in MimesOf(records)
  {
    if records != [] {
      HasMimeTypeIffCached(records[1..], mime);
    }
  }

  // Repetitions in the cache.

  ghost predicate NoRepeats(types: seq<string>)
  {
    forall i, k :: 0 <= i < k < |types| ==> types[i] != types[k]
  }

  /** No two non-null slots share a MIME type. */
  ghost predicate DistinctTypes(records: seq<Option<Record>>)
  {
    forall i, k :: 0 <= i < k < |records| && records[i].Some? && records[k].Some? ==>
                     records[i].value.mimeType != records[k].value.mimeType
  }

  lemma TypeListedIff(records: seq<Option<Record>>, mime: string)
    ensures mime in MimesOf(records)
            <==> exists k :: 0 <= k < |records| && records[k].Some? && records[k].value.mimeType == mime
  {
    hide MimesOf, FirstOfKind;
    HasMimeTypeIffCached(records, mime);
    FirstOfKindCharacterised(records, mime);
  }

  lemma PrependRepeatFree(mime: string, types: seq<string>)
    ensures NoRepeats([mime] + types) <==> mime !in types && NoRepeats(types)
  {
    var longer := [mime] + types;
    if NoRepeats(longer) {
      forall i, k | 0 <= i < k < |types|
        ensures types[i] != types[k]
      {
        assert longer[i + 1] != longer[k + 1];
      }
      forall i | 0 <= i < |types|
        ensures types[i] != mime
      {
        assert longer[0] != longer[i + 1];
      }
    }
  }

  lemma FirstTypeDistinct(records: seq<Option<Record>>)
    requires records != []
    ensures DistinctTypes(records)
            <==> DistinctTypes(records[1..])
                 && (records[0].Some? ==> records[0].value.mimeType !in MimesOf(records[1..]))
  {
    hide MimesOf;
    var others := records[1..];
    assert forall i :: 0 <= i < |others| ==> records[i + 1] == others[i];
    if records[0].Some? {
      TypeListedIff(others, records[0].value.mimeType);
    }
  }

  /** The list of types that a refresh makes is free of repetitions exactly when the records' types differ. */
  lemma {:induction false} MimesRepeatFreeIff(records: seq<Option<Record>>)
    ensures NoRepeats(MimesOf(records)) <==> DistinctTypes(records)
  {
    hide NoRepeats, DistinctTypes;
    if records == [] {
      assert NoRepeats([]) by { EmptyRepeatFree(); }
      assert DistinctTypes(records) by { EmptyRepeatFree(); }
    } else {
      var others := records[1..];
      MimesRepeatFreeIff(others);
      FirstTypeDistinct(records);
      if records[0].Some? {
        PrependRepeatFree(records[0].value.mimeType, MimesOf(others));
      } else {
        assert MimesOf(records) == MimesOf(others);
      }
    }
  }

  lemma EmptyRepeatFree()
    ensures NoRepeats([]) && DistinctTypes([])
  {
  }

  /**
   The cached list is documented as free of repetitions. From an empty object and any mutators that
   holds exactly when no two records share a type; after adds only, exactly when the types of the
   last 128 accepted records differ.
   */
  lemma CacheRepeatFreeIff(ops: seq<Mutator>)
    ensures NoRepeats(Mutated(EMPTY, ops).mimeTypes) <==> DistinctTypes(Mutated(EMPTY, ops).records)
    ensures (forall i :: 0 <= i < |ops| ==> ops[i].IsAdd()) ==>
              var survivors := Last(MAX_RECORD_NUM, Accepted(ops));
              NoRepeats(Mutated(EMPTY, ops).mimeTypes)
              <==> forall i, k :: 0 <= i < k < |survivors| ==> survivors[i].mimeType != survivors[k].mimeType
  {
    hide Mutated, NoRepeats, DistinctTypes, Last, Accepted, MimesOf;
    MimeCacheAgreement(EMPTY, ops);
    EmptyInStep();
    MimesRepeatFreeIff(Mutated(EMPTY, ops).records);
    if forall i :: 0 <= i < |ops| ==> ops[i].IsAdd() {
      HistoryRefinement(ops);
      WindowIsReversedLast(Accepted(ops));
      ReversedTypesDistinct(Last(MAX_RECORD_NUM, Accepted(ops)));
    }
  }

  lemma EmptyInStep()
    ensures InStep(EMPTY)
  {
  }

  lemma ReversedTypesDistinct(rs: seq<Record>)
    ensures DistinctTypes(Somes(Reverse(rs)))
            <==> forall i, k :: 0 <= i < k < |rs| ==> rs[i].mimeType != rs[k].mimeType
  {
    var records, n := Somes(Reverse(rs)), |rs|;
    assert forall i :: 0 <= i < n ==> records[n - 1 - i] == Some(rs[i]);
    if DistinctTypes(records) {
      forall i, k | 0 <= i < k < n
        ensures rs[i].mimeType != rs[k].mimeType
      {
        assert records[n - 1 - k] == Some(rs[k]) && records[n - 1 - i] == Some(rs[i]);
      }
    }
  }

  /** Two plain text records: their type is listed twice. */
  lemma TwoTextsRepeatTheirType()
    ensures Mutated(EMPTY, [AddText("a"), AddText("b")]).mimeTypes == [MIMETYPE_TEXT_PLAIN, MIMETYPE_TEXT_PLAIN]
    ensures !NoRepeats(Mutated(EMPTY, [AddText("a"), AddText("b")]).mimeTypes)
  {
    var a, b := NewPlaintTextRecord("a"), NewPlaintTextRecord("b");
    var ops := [AddText("a"), AddText("b")];
    assert ops[..1] == [AddText("a")] && ops[..1][..0] == [];
    assert Mutated(EMPTY, ops[..1]) == Added(EMPTY, a);
    assert Pushed([], a.value) == [a];
    assert Mutated(EMPTY, ops) == Added(Refreshed([a]), b);
    assert Pushed([a], b.value) == [b, a];
    assert [b, a][1..] == [a] && [a][1..] == [];
    var types := Mutated(EMPTY, ops).mimeTypes;
    assert types == MimeOf(b) + (MimeOf(a) + []);
    assert types[0] == types[1];
  }

  // Null slots.

  /** What a deletion would leave, as the interface documentation describes it. */
  ghost function Deleted(records: seq<Option<Record>>, n: nat): seq<Option<Record>>
  {
    if n < |records| then records[..n] + records[n + 1..] else records
  }

  /**
   `RemoveRecordAt` deletes nothing: it meets the documented deletion exactly when the index is out
   of range and there is nothing to delete. In range, every record stays and a null slot is added.
   */
  lemma RemoveRecordAtDeletesIff(c: Contents, n: nat)
    ensures RemoveRecordAt(n).Apply(c).records == Deleted(c.records, n) <==> n >= |c.records|
    ensures n < |c.records| ==>
              var after := RemoveRecordAt(n).Apply(c).records;
              Deleted(after, n) == c.records && after[n].None? && MimesOf(after) == MimesOf(c.records)
  {
    hide MimesOf;
    if n < |c.records| {
      NullAddsNoMime(c.records, n);
      assert |NullInserted(c.records, n)| == |c.records| + 1;
      assert |Deleted(c.records, n)| == |c.records| - 1;
    }
  }

  /** One record and a removal of it: the record is still there. */
  lemma RemovedRecordStays(r: Record)
    ensures RemoveRecordAt(0).Apply(Refreshed([Some(r)])).records == [None, Some(r)]
    ensures RemoveRecordAt(0).Apply(Refreshed([Some(r)])).records != Deleted([Some(r)], 0)
  {
  }

  /** Without null slots every scan is safe. */
  lemma {:induction false} NoNullsScanSafe(records: seq<Option<Record>>, mime: string)
    requires NoNulls(records)
    ensures ScanSafe(records, mime)
  {
    if records != [] {
      NoNullsScanSafe(records[1..], mime);
    }
  }

  /**
   When a getter survives a `RemoveRecordAt` in range: it dereferences no null slot exactly when it
   met a record of its type in front of that index, by a scan that was safe so far.
   */
  lemma {:induction false} RemoveRecordAtScanSafeIff(records: seq<Option<Record>>, n: nat, mime: string)
    requires n < |records|
    ensures ScanSafe(NullInserted(records, n), mime)
            <==> ScanSafe(records[..n], mime) && FirstOfKind(records[..n], mime).Some?
    decreases n
  {
    var after := NullInserted(records, n);
    if n == 0 {
      assert after[0] == None;
    } else {
      assert after[0] == records[0] && after[1..] == NullInserted(records[1..], n - 1);
      assert records[..n][0] == records[0] && records[..n][1..] == records[1..][..n - 1];
      RemoveRecordAtScanSafeIff(records[1..], n - 1, mime);
    }
  }

  /** No operation of the sequence can bring in a null slot: no removal, no replacement by null. */
  ghost predicate BringsNoNull(ops: seq<Mutator>)
  {
    forall i :: 0 <= i < |ops| ==> !ops[i].RemoveRecordAt? && (ops[i].ReplaceRecordAt? ==> ops[i].record.Some?)
  }

  /**
   After any adds and replacements by records there is no null slot, so that every getter and
   `HasMimeType` can be called for every type.
   */
  lemma {:induction false} GettersCallable(ops: seq<Mutator>, mime: string)
    requires BringsNoNull(ops)
    ensures NoNulls(Mutated(EMPTY, ops).records) && ScanSafe(Mutated(EMPTY, ops).records, mime)
    decreases |ops|
  {
    if ops != [] {
      GettersCallable(ops[..|ops| - 1], mime);
    }
    NoNullsScanSafe(Mutated(EMPTY, ops).records, mime);
  }

  lemma NullAddsNoMime(records: seq<Option<Record>>, n: nat)
    requires n < |records|
    ensures MimesOf(NullInserted(records, n)) == MimesOf(records)
  {
    var front, back := records[..n], records[n..];
    assert NullInserted(records, n) == front + ([None] + back);
    assert records == front + back;
    assert MimesOf([None] + back) == MimesOf(back) by {
      assert ([None] + back)[1..] == back;
    }
    hide MimesOf;
    MimesOfConcat(front, [None] + back);
    MimesOfConcat(front, back);
  }

  lemma {:induction false} MimesOfConcat(a: seq<Option<Record>>, b: seq<Option<Record>>)
    ensures MimesOf(a + b) == MimesOf(a) + MimesOf(b)
  {
    hide MimeOf;
    if a == [] {
      assert a + b == b;
    } else {
      MimesOfConcat(a[1..], b);
      assert (a + b)[0] == a[0] && (a + b)[1..] == a[1..] + b;
      assert MimesOf(a + b) == MimeOf(a[0]) + (MimesOf(a[1..]) + MimesOf(b));
    }
  }
}
