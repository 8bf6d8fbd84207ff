/**
 The per-application behaviour counters and the top-ten report a flush makes of them.

 `std::sort` leaves the order of apps with equal counts open, so a flush is a labelled step: the
 operation carries the slots that were reported, and `Allowed` says which slots can be.
 */
module AppCounters {
  import opened Sequences
  import opened ConsumingTables

  const BPS_COPY_STATE := 0
  const BPS_PASTE_STATE := 1

  const TOTAL_APP_NUMBERS := 10

  type Counts = map<string, int>

  datatype Slot = Default | App(name: string, count: int)

  datatype AppReport = AppReport(tag: Label, slots: seq<Slot>)

  datatype Apps = Apps(copy: Counts, paste: Counts, reports: seq<AppReport>)

  const NO_APPS := Apps(map[], map[], [])

  function Incremented(m: Counts, app: string): Counts
  {
    m[app := if app in m then m[app] + 1 else 1]
  }

  function Noted(apps: Apps, state: int, app: string): Apps
  {
    if state == BPS_COPY_STATE then apps.(copy := Incremented(apps.copy, app))
    else if state == BPS_PASTE_STATE then apps.(paste := Incremented(apps.paste, app))
    else apps
  }

  /** Distinct apps of the map with their counts, most frequent first. */
  ghost predicate Ranking(m: Counts, ranked: seq<Slot>)
  {
    |ranked| == |m|
    && (forall i :: 0 <= i < |ranked| ==> ranked[i].App? && ranked[i].name in m && m[ranked[i].name] == ranked[i].count)
    && (forall i, k :: 0 <= i < k < |ranked| ==> ranked[i].name != ranked[k].name)
    && (forall i, k :: 0 <= i < k < |ranked| ==> ranked[i].count >= ranked[k].count)
  }

  /** The ten slots of a report: the whole ranking, then "default". */
  ghost predicate IsTopTen(m: Counts, slots: seq<Slot>)
  {
    |m| <= |slots| == TOTAL_APP_NUMBERS
    && Ranking(m, slots[..|m|])
    && forall i :: |m| <= i < |slots| ==> slots[i] == Default
  }

  datatype AppOp =
    | Note(state: int, app: string)
    | FlushApps(copySlots: seq<Slot>, pasteSlots: seq<Slot>)

  ghost predicate Allowed(apps: Apps, op: AppOp)
  {
    op.FlushApps? ==>
      (apps.copy != map[] ==> IsTopTen(apps.copy, op.copySlots))
      && (apps.paste != map[] ==> IsTopTen(apps.paste, op.pasteSlots))
  }

  function Did(apps: Apps, op: AppOp): Apps
  {
    match op
    case Note(state, app) => Noted(apps, state, app)
    case FlushApps(copySlots, pasteSlots) =>
      Apps(map[], map[],
           apps.reports
           + (if apps.copy == map[] then [] else [AppReport(CopyState, copySlots)])
           + (if apps.paste == map[] then [] else [AppReport(PasteState, pasteSlots)]))
  }

  function AppsAfter(ops: seq<AppOp>): Apps
    decreases |ops|
  {
    if ops == [] then NO_APPS else Did(AppsAfter(ops[..|ops| - 1]), ops[|ops| - 1])
  }

  /** Every step of the run is one the code can make. */
  ghost predicate Trace(ops: seq<AppOp>)
    decreases |ops|
  {
    ops == [] || (Trace(ops[..|ops| - 1]) && Allowed(AppsAfter(ops[..|ops| - 1]), ops[|ops| - 1]))
  }

  // When a flush is defined.

  ghost predicate LeastCounted(m: Counts, k: string)
  {
    k in m && forall a :: a in m ==> m[k] <= m[a]
  }

  lemma {:induction false} LeastCountedExists(m: Counts)
    requires m != map[]
    ensures exists k :: LeastCounted(m, k)
    decreases |m|
  {
    var k :| k in m;
    var others := m - {k};
    assert m.Keys == others.Keys + {k};
    if others == map[] {
      assert LeastCounted(m, k);
    } else {
      LeastCountedExists(others);
      var low :| LeastCounted(others, low);
      assert LeastCounted(m, if m[k] <= m[low] then k else low);
    }
  }

  lemma {:induction false} RankingExists(m: Counts)
    ensures exists ranked :: Ranking(m, ranked)
    decreases |m|
  {
    if m == map[] {
      assert Ranking(m, []);
    } else {
      LeastCountedExists(m);
      var k :| LeastCounted(m, k);
      RankingExists(m - {k});
      var ranked :| Ranking(m - {k}, ranked);
      assert (m - {k}).Keys == m.Keys - {k};
      assert Ranking(m, ranked + [App(k, m[k])]);
    }
  }

  /** The fill loop stays inside its ten slots exactly for at most ten apps. */
  lemma TopTenExistsIff(m: Counts)
    ensures (exists slots :: IsTopTen(m, slots)) <==> |m| <= TOTAL_APP_NUMBERS
  {
    if |m| <= TOTAL_APP_NUMBERS {
      RankingExists(m);
      var ranked :| Ranking(m, ranked);
      var slots := ranked + seq(TOTAL_APP_NUMBERS - |m|, _ => Default);
      assert slots[..|m|] == ranked;
      assert IsTopTen(m, slots);
    }
  }

  /** The apps noted with a state since the last flush. */
  ghost function RecentApps(ops: seq<AppOp>, state: int): set<string>
    decreases |ops|
  {
    if ops == [] || ops[|ops| - 1].FlushApps? then {}
    else
      RecentApps(ops[..|ops| - 1], state) + (if ops[|ops| - 1].state == state then {ops[|ops| - 1].app} else {})
  }

  lemma {:induction false} KeysAreRecentApps(ops: seq<AppOp>)
    ensures AppsAfter(ops).copy.Keys == RecentApps(ops, BPS_COPY_STATE)
    ensures AppsAfter(ops).paste.Keys == RecentApps(ops, BPS_PASTE_STATE)
    decreases |ops|
  {
    if ops != [] {
      KeysAreRecentApps(ops[..|ops| - 1]);
    }
  }

  /**
   After any run the next flush is defined exactly when at most ten different apps copied, and at
   most ten pasted, since the last one. With more, a fill loop writes past its tenth slot.
   */
  lemma FlushDefinedIff(ops: seq<AppOp>)
    ensures (exists op: AppOp :: op.FlushApps? && Allowed(AppsAfter(ops), op))
            <==> |RecentApps(ops, BPS_COPY_STATE)| <= TOTAL_APP_NUMBERS
                 && |RecentApps(ops, BPS_PASTE_STATE)| <= TOTAL_APP_NUMBERS
  {
    var apps := AppsAfter(ops);
    KeysAreRecentApps(ops);
    assert |apps.copy.Keys| == |apps.copy| && |apps.paste.Keys| == |apps.paste|;
    TopTenExistsIff(apps.copy);
    TopTenExistsIff(apps.paste);
    if |apps.copy| <= TOTAL_APP_NUMBERS && |apps.paste| <= TOTAL_APP_NUMBERS {
      var copySlots :| IsTopTen(apps.copy, copySlots);
      var pasteSlots :| IsTopTen(apps.paste, pasteSlots);
      assert Allowed(apps, FlushApps(copySlots, pasteSlots));
    }
  }

  /** `n` apps that copy once each. */
  function OnceEach(n: nat): seq<AppOp>
  {
    seq(n, i requires 0 <= i < n => Note(BPS_COPY_STATE, seq(i, _ => 'a')))
  }

  lemma {:induction false} OnceEachApps(n: nat)
    ensures |RecentApps(OnceEach(n), BPS_COPY_STATE)| == n && RecentApps(OnceEach(n), BPS_PASTE_STATE) == {}
    ensures forall a :: a in RecentApps(OnceEach(n), BPS_COPY_STATE) ==> |a| < n
    decreases n
  {
    if n > 0 {
      OnceEachApps(n - 1);
      assert OnceEach(n)[..n - 1] == OnceEach(n - 1);
      var app := seq(n - 1, _ => 'a');
      assert OnceEach(n)[n - 1] == Note(BPS_COPY_STATE, app);
      assert app !in RecentApps(OnceEach(n - 1), BPS_COPY_STATE);
      assert RecentApps(OnceEach(n), BPS_COPY_STATE) == RecentApps(OnceEach(n - 1), BPS_COPY_STATE) + {app};
    }
  }

  /** Ten apps can be flushed, eleven cannot. */
  lemma ElevenAppsOverflow()
    ensures exists op: AppOp :: op.FlushApps? && Allowed(AppsAfter(OnceEach(10)), op)
    ensures !exists op: AppOp :: op.FlushApps? && Allowed(AppsAfter(OnceEach(11)), op)
  {
    hide Allowed, RecentApps, OnceEach;
    OnceEachApps(10);
    OnceEachApps(11);
    FlushDefinedIff(OnceEach(10));
    FlushDefinedIff(OnceEach(11));
  }

  // What a report shows.

  ghost function NamesIn(slots: seq<Slot>): set<string>
    decreases |slots|
  {
    if slots == [] then {}
    else NamesIn(slots[..|slots| - 1]) + (if slots[|slots| - 1].App? then {slots[|slots| - 1].name} else {})
  }

  ghost function SlotCount(slots: seq<Slot>, app: string): int
    decreases |slots|
  {
    if slots == [] then 0
    else
      var slot := slots[|slots| - 1];
      SlotCount(slots[..|slots| - 1], app) + (if slot.App? && slot.name == app then slot.count else 0)
  }

  lemma {:induction false} RankingShowsCounts(m: Counts, ranked: seq<Slot>, app: string)
    requires Ranking(m, ranked)
    ensures NamesIn(ranked) == m.Keys && SlotCount(ranked, app) == Pending(m, app)
    decreases |ranked|
  {
    if ranked == [] {
      assert m == map[];
    } else {
      var k := ranked[|ranked| - 1].name;
      assert (m - {k}).Keys == m.Keys - {k};
      RankingShowsCounts(m - {k}, ranked[..|ranked| - 1], app);
    }
  }

  lemma {:induction false} DefaultsShowNothing(slots: seq<Slot>, n: nat, app: string)
    requires n <= |slots| && forall i :: n <= i < |slots| ==> slots[i] == Default
    ensures NamesIn(slots) == NamesIn(slots[..n]) && SlotCount(slots, app) == SlotCount(slots[..n], app)
    decreases |slots|
  {
    if n < |slots| {
      DefaultsShowNothing(slots[..|slots| - 1], n, app);
      assert slots[..|slots| - 1][..n] == slots[..n];
    } else {
      assert slots[..n] == slots;
    }
  }

  /**
   A report shows every app of the map, and each app once, with its count.
   */
  lemma ReportShowsCounts(m: Counts, slots: seq<Slot>, app: string)
    requires IsTopTen(m, slots)
    ensures NamesIn(slots) == m.Keys && SlotCount(slots, app) == Pending(m, app)
  {
    RankingShowsCounts(m, slots[..|m|], app);
    DefaultsShowNothing(slots, |m|, app);
  }

  /** A report in order: the apps of the map with their counts, most frequent first, then defaults. */
  lemma TopTenInOrder(m: Counts, slots: seq<Slot>, i: nat, k: nat)
    requires IsTopTen(m, slots)
    ensures |slots| == 10
    ensures i < |m| ==> slots[i].App? && slots[i].name in m && slots[i].count == m[slots[i].name]
    ensures i < k < |m| ==> slots[i].name != slots[k].name && slots[i].count >= slots[k].count
    ensures |m| <= i < 10 ==> slots[i] == Default
  {
    assert forall l :: 0 <= l < |m| ==> slots[..|m|][l] == slots[l];
  }

  /** The fill with the bound the loop lacks: the first ten of the ranking, then defaults. */
  function BoundedSlots(ranked: seq<Slot>): (slots: seq<Slot>)
    ensures |slots| == TOTAL_APP_NUMBERS
  {
    var top := First(TOTAL_APP_NUMBERS, ranked);
    top + seq(TOTAL_APP_NUMBERS - |top|, _ => Default)
  }

  /**
   With that bound the report is defined for any number of apps: it shows distinct apps with their
   counts, most frequent first, and no app left out has a larger count than one shown. Where the
   source's own loop is defined, it is the same report.
   */
  lemma BoundedFillShowsTop(m: Counts, ranked: seq<Slot>)
    requires Ranking(m, ranked)
    ensures var slots := BoundedSlots(ranked); var k := if |m| < TOTAL_APP_NUMBERS then |m| else TOTAL_APP_NUMBERS;
            (forall i :: 0 <= i < k ==> slots[i].App? && slots[i].name in m && slots[i].count == m[slots[i].name])
            && (forall i, l :: 0 <= i < l < k ==> slots[i].name != slots[l].name && slots[i].count >= slots[l].count)
            && (forall i :: k <= i < TOTAL_APP_NUMBERS ==> slots[i] == Default)
            && (forall a, i :: a in m && 0 <= i < k && (forall l :: 0 <= l < k ==> slots[l].name != a) ==>
                                 m[a] <= slots[i].count)
    ensures |m| <= TOTAL_APP_NUMBERS ==> IsTopTen(m, BoundedSlots(ranked))
  {
    var slots := BoundedSlots(ranked);
    var k := if |m| < TOTAL_APP_NUMBERS then |m| else TOTAL_APP_NUMBERS;
    assert forall i :: 0 <= i < k ==> slots[i] == ranked[i];
    forall a, i | a in m && 0 <= i < k && forall l :: 0 <= l < k ==> slots[l].name != a
      ensures m[a] <= slots[i].count
    {
      RankingShowsCounts(m, ranked, a);
      NamesComeFromSlots(ranked, a);
      var p :| 0 <= p < |ranked| && ranked[p].App? && ranked[p].name == a;
      assert p >= k;
    }
    if |m| <= TOTAL_APP_NUMBERS {
      assert slots[..|m|] == ranked;
    }
  }

  lemma {:induction false} NamesComeFromSlots(slots: seq<Slot>, a: string)
    ensures a in NamesIn(slots) ==> exists p :: 0 <= p < |slots| && slots[p].App? && slots[p].name == a
    decreases |slots|
  {
    if slots != [] {
      var shorter := slots[..|slots| - 1];
      NamesComeFromSlots(shorter, a);
      if a in NamesIn(shorter) {
        var p :| 0 <= p < |shorter| && shorter[p].App? && shorter[p].name == a;
        assert slots[p] == shorter[p];
      }
    }
  }

  // Conservation for each app.

  function Pending(m: Counts, app: string): int
  {
    if app in m then m[app] else 0
  }

  ghost function ReportedFor(reports: seq<AppReport>, tag: Label, app: string): int
    decreases |reports|
  {
    if reports == [] then 0
    else
      var report := reports[|reports| - 1];
      ReportedFor(reports[..|reports| - 1], tag, app) + (if report.tag == tag then SlotCount(report.slots, app) else 0)
  }

  ghost function Notes(ops: seq<AppOp>, state: int, app: string): nat
    decreases |ops|
  {
    if ops == [] then 0
    else Notes(ops[..|ops| - 1], state, app) + (if ops[|ops| - 1] == Note(state, app) then 1 else 0)
  }

  ghost function NotesSinceFlush(ops: seq<AppOp>, state: int, app: string): nat
    decreases |ops|
  {
    if ops == [] || ops[|ops| - 1].FlushApps? then 0
    else NotesSinceFlush(ops[..|ops| - 1], state, app) + (if ops[|ops| - 1] == Note(state, app) then 1 else 0)
  }

  lemma {:induction false} ReportedForConcat(a: seq<AppReport>, b: seq<AppReport>, tag: Label, app: string)
    ensures ReportedFor(a + b, tag, app) == ReportedFor(a, tag, app) + ReportedFor(b, tag, app)
    decreases |b|
  {
    if b == [] {
      assert a + b == a;
    } else {
      assert (a + b)[..|a + b| - 1] == a + b[..|b| - 1];
      ReportedForConcat(a, b[..|b| - 1], tag, app);
    }
  }

  lemma SingleReport(tag: Label, slots: seq<Slot>, tag': Label, app: string)
    ensures ReportedFor([AppReport(tag, slots)], tag', app) == if tag == tag' then SlotCount(slots, app) else 0
  {
    assert [AppReport(tag, slots)][..0] == [];
  }

  lemma FlushMovesCounts(apps: Apps, op: AppOp, tag: Label, app: string)
    requires op.FlushApps? && Allowed(apps, op)
    ensures ReportedFor(Did(apps, op).reports, tag, app)
            == ReportedFor(apps.reports, tag, app) + Pending(if tag == CopyState then apps.copy else apps.paste, app)
  {
    var copyPart := if apps.copy == map[] then [] else [AppReport(CopyState, op.copySlots)];
    var pastePart := if apps.paste == map[] then [] else [AppReport(PasteState, op.pasteSlots)];
    ReportedForConcat(apps.reports + copyPart, pastePart, tag, app);
    ReportedForConcat(apps.reports, copyPart, tag, app);
    SingleReport(CopyState, op.copySlots, tag, app);
    SingleReport(PasteState, op.pasteSlots, tag, app);
    if apps.copy != map[] {
      ReportShowsCounts(apps.copy, op.copySlots, app);
    }
    if apps.paste != map[] {
      ReportShowsCounts(apps.paste, op.pasteSlots, app);
    }
  }

  /**
   Conservation over any run, for each app and kind: its pending count plus what reports have shown
   for it is the number of times it was noted. Here the labels are not swapped.
   */
  lemma {:induction false} AppConservation(ops: seq<AppOp>, app: string)
    requires Trace(ops)
    ensures var apps := AppsAfter(ops);
            Pending(apps.copy, app) + ReportedFor(apps.reports, CopyState, app) == Notes(ops, BPS_COPY_STATE, app)
    ensures var apps := AppsAfter(ops);
            Pending(apps.paste, app) + ReportedFor(apps.reports, PasteState, app) == Notes(ops, BPS_PASTE_STATE, app)
    decreases |ops|
  {
    if ops != [] {
      var before, op := ops[..|ops| - 1], ops[|ops| - 1];
      AppConservation(before, app);
      if op.FlushApps? {
        FlushMovesCounts(AppsAfter(before), op, CopyState, app);
        FlushMovesCounts(AppsAfter(before), op, PasteState, app);
      }
    }
  }

  /** A stored count is positive and is the number of notes since the last flush. */
  lemma {:induction false} StoredCountsAreRecentNotes(ops: seq<AppOp>, app: string)
    ensures var apps := AppsAfter(ops);
            Pending(apps.copy, app) == NotesSinceFlush(ops, BPS_COPY_STATE, app)
            && (app in apps.copy <==> NotesSinceFlush(ops, BPS_COPY_STATE, app) > 0)
            && Pending(apps.paste, app) == NotesSinceFlush(ops, BPS_PASTE_STATE, app)
            && (app in apps.paste <==> NotesSinceFlush(ops, BPS_PASTE_STATE, app) > 0)
    decreases |ops|
  {
    if ops != [] {
      StoredCountsAreRecentNotes(ops[..|ops| - 1], app);
    }
  }

  // Conservation of the grand total.

  ghost function SumCounts(m: Counts): int
    decreases |m|
  {
    if m == map[] then 0
    else
      var k :| k in m;
      m[k] + SumCounts(m - {k})
  }

  lemma {:induction false} SumCountsWithout(m: Counts, k: string)
    requires k in m
    ensures SumCounts(m) == m[k] + SumCounts(m - {k})
    decreases |m|
  {
    var j :| j in m && SumCounts(m) == m[j] + SumCounts(m - {j});
    if j != k {
      SumCountsWithout(m - {j}, k);
      SumCountsWithout(m - {k}, j);
      assert m - {j} - {k} == m - {k} - {j};
    }
  }

  ghost function SumSlots(slots: seq<Slot>): int
    decreases |slots|
  {
    if slots == [] then 0
    else SumSlots(slots[..|slots| - 1]) + (if slots[|slots| - 1].App? then slots[|slots| - 1].count else 0)
  }

  ghost function SumReports(reports: seq<AppReport>): int
    decreases |reports|
  {
    if reports == [] then 0 else SumReports(reports[..|reports| - 1]) + SumSlots(reports[|reports| - 1].slots)
  }

  lemma {:induction false} RankingSum(m: Counts, ranked: seq<Slot>)
    requires Ranking(m, ranked)
    ensures SumSlots(ranked) == SumCounts(m)
    decreases |ranked|
  {
    if ranked != [] {
      var k := ranked[|ranked| - 1].name;
      SumCountsWithout(m, k);
      assert (m - {k}).Keys == m.Keys - {k};
      RankingSum(m - {k}, ranked[..|ranked| - 1]);
    } else {
      assert m == map[];
    }
  }

  lemma {:induction false} DefaultsAddNothing(slots: seq<Slot>, n: nat)
    requires n <= |slots| && forall i :: n <= i < |slots| ==> slots[i] == Default
    ensures SumSlots(slots) == SumSlots(slots[..n])
    decreases |slots|
  {
    if n < |slots| {
      DefaultsAddNothing(slots[..|slots| - 1], n);
      assert slots[..|slots| - 1][..n] == slots[..n];
    } else {
      assert slots[..n] == slots;
    }
  }

  /** The counts a report shows add up to the counts of the map. */
  lemma TopTenSum(m: Counts, slots: seq<Slot>)
    requires IsTopTen(m, slots)
    ensures SumSlots(slots) == SumCounts(m)
  {
    RankingSum(m, slots[..|m|]);
    DefaultsAddNothing(slots, |m|);
  }

  ghost function AppTotal(apps: Apps): int
  {
    SumReports(apps.reports) + SumCounts(apps.copy) + SumCounts(apps.paste)
  }

  lemma IncrementAddsOne(m: Counts, app: string)
    ensures SumCounts(Incremented(m, app)) == SumCounts(m) + 1
  {
    var m' := Incremented(m, app);
    SumCountsWithout(m', app);
    if app in m {
      SumCountsWithout(m, app);
      assert m' - {app} == m - {app};
    } else {
      assert m' - {app} == m;
    }
  }

  lemma AppStepTotal(apps: Apps, op: AppOp)
    requires Allowed(apps, op)
    ensures AppTotal(Did(apps, op))
            == AppTotal(apps) + (if op.Note? && op.state in {BPS_COPY_STATE, BPS_PASTE_STATE} then 1 else 0)
  {
    match op
    case Note(state, app) =>
      IncrementAddsOne(apps.copy, app);
      IncrementAddsOne(apps.paste, app);
    case FlushApps(copySlots, pasteSlots) =>
      var copyPart := if apps.copy == map[] then [] else [AppReport(CopyState, copySlots)];
      var pastePart := if apps.paste == map[] then [] else [AppReport(PasteState, pasteSlots)];
      SumReportsAppend(apps.reports, copyPart);
      SumReportsAppend(apps.reports + copyPart, pastePart);
      if apps.copy != map[] { TopTenSum(apps.copy, copySlots); }
      if apps.paste != map[] { TopTenSum(apps.paste, pasteSlots); }
  }

  lemma SumReportsAppend(reports: seq<AppReport>, more: seq<AppReport>)
    requires |more| <= 1
    ensures SumReports(reports + more) == SumReports(reports) + (if more == [] then 0 else SumSlots(more[0].slots))
  {
    if more == [] {
      assert reports + more == reports;
    } else {
      assert (reports + more)[..|reports|] == reports;
    }
  }
}
