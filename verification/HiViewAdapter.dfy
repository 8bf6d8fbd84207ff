/**
 The telemetry adapter: its static tables and maps as one object updated in place, with a log of the
 events it writes. The mutexes are not part of this file; each method runs under its own.
 */
module HiViewAdapters {
  import opened Wrappers
  import opened ConsumingTables
  import opened AppCounters

  const INIT_COPY_TIME_SONSUMING := 7
  const INIT_PASTE_TIME_SONSUMING := 8

  /** What became of a report: the map was empty, it was shown, or the fill loop left its slots. */
  datatype Outcome = NothingNoted | Shown(slots: seq<Slot>) | PastLastSlot

  class HiViewAdapter {
    const dataMap: map<int, int>
    const timeMap: map<int, int>
    var copyTimeConsumingStat: Table
    var pasteTimeConsumingStat: Table
    var rows: seq<Row>
    var copyPasteboardBehaviour: Counts
    var pastePasteboardBehaviour: Counts
    var reports: seq<AppReport>

    function Stats(): Tables
      reads this
    {
      Tables(copyTimeConsumingStat, pasteTimeConsumingStat, rows)
    }

    function Behaviour(): Apps
      reads this
    {
      Apps(copyPasteboardBehaviour, pastePasteboardBehaviour, reports)
    }

    ghost predicate Valid()
      reads this
    {
      Shape(Stats()) && dataMap == InitDataMap() && timeMap == InitTimeMap()
    }

    constructor ()
      ensures Valid() && Stats() == NO_TABLES && Behaviour() == NO_APPS
    {
      dataMap, timeMap := InitDataMap(), InitTimeMap();
      copyTimeConsumingStat, pasteTimeConsumingStat, rows := [], [], [];
      copyPasteboardBehaviour, pastePasteboardBehaviour, reports := map[], map[], [];
    }

    /** Appends seven zero rows to the chosen table. */
    method InitializeTimeConsuming(initFlag: int)
      modifies this`copyTimeConsumingStat, this`pasteTimeConsumingStat
      ensures copyTimeConsumingStat
              == old(copyTimeConsumingStat) + (if initFlag == INIT_COPY_TIME_SONSUMING then FreshTable() else [])
      ensures pasteTimeConsumingStat
              == old(pasteTimeConsumingStat) + (if initFlag == INIT_PASTE_TIME_SONSUMING then FreshTable() else [])
    {
      var initTimeConsuming: Counters := map[];
      for j := 0 to TIME_LEVEL_NUMBERS
        invariant forall k :: k in initTimeConsuming <==> 0 <= k < j
        invariant forall k :: k in initTimeConsuming ==> initTimeConsuming[k] == 0
      {
        initTimeConsuming := initTimeConsuming[j := 0];
      }
      assert initTimeConsuming == ZeroCounters() by {
        assert initTimeConsuming.Keys == ZeroCounters().Keys by {
          assert forall k :: k in ZeroCounters() <==> 0 <= k < TIME_LEVEL_NUMBERS;
        }
      }
      if initFlag == INIT_COPY_TIME_SONSUMING {
        for i := 0 to DATA_LEVEL_NUMBERS
          invariant copyTimeConsumingStat == old(copyTimeConsumingStat) + seq(i, _ => ZeroCounters())
          invariant pasteTimeConsumingStat == old(pasteTimeConsumingStat)
        {
          copyTimeConsumingStat := copyTimeConsumingStat + [initTimeConsuming];
        }
      } else if initFlag == INIT_PASTE_TIME_SONSUMING {
        for i := 0 to DATA_LEVEL_NUMBERS
          invariant pasteTimeConsumingStat == old(pasteTimeConsumingStat) + seq(i, _ => ZeroCounters())
          invariant copyTimeConsumingStat == old(copyTimeConsumingStat)
        {
          pasteTimeConsumingStat := pasteTimeConsumingStat + [initTimeConsuming];
        }
      }
    }

    method CopyTimeConsumingCount(dataLevel: nat, timeLevel: int)
      modifies this`copyTimeConsumingStat
      ensures copyTimeConsumingStat == Counted(old(copyTimeConsumingStat), dataLevel, timeLevel)
    {
      if |copyTimeConsumingStat| <= dataLevel {
        return;
      }
      var counters := copyTimeConsumingStat[dataLevel];
      if timeLevel in counters {
        copyTimeConsumingStat := copyTimeConsumingStat[dataLevel := counters[timeLevel := counters[timeLevel] + 1]];
      }
    }

    method PasteTimeConsumingCount(dataLevel: nat, timeLevel: int)
      modifies this`pasteTimeConsumingStat
      ensures pasteTimeConsumingStat == Counted(old(pasteTimeConsumingStat), dataLevel, timeLevel)
    {
      if |pasteTimeConsumingStat| <= dataLevel {
        return;
      }
      var counters := pasteTimeConsumingStat[dataLevel];
      if timeLevel in counters {
        pasteTimeConsumingStat := pasteTimeConsumingStat[dataLevel := counters[timeLevel := counters[timeLevel] + 1]];
      }
    }

    method CopyTimeConsuming(stat: Stat, level: nat)
      requires Valid()
      modifies this`copyTimeConsumingStat
      ensures copyTimeConsumingStat
              == if stat.time in InitTimeMap()
                 then Counted(old(copyTimeConsumingStat), level, InitTimeMap()[stat.time])
                 else old(copyTimeConsumingStat)
    {
      if stat.time in timeMap {
        CopyTimeConsumingCount(level, timeMap[stat.time]);
      }
    }

    method PasteTimeConsuming(stat: Stat, level: nat)
      requires Valid()
      modifies this`pasteTimeConsumingStat
      ensures pasteTimeConsumingStat
              == if stat.time in InitTimeMap()
                 then Counted(old(pasteTimeConsumingStat), level, InitTimeMap()[stat.time])
                 else old(pasteTimeConsumingStat)
    {
      if stat.time in timeMap {
        PasteTimeConsumingCount(level, timeMap[stat.time]);
      }
    }

    method ReportTimeConsumingStatistic(stat: Stat)
      requires Valid()
      modifies this`copyTimeConsumingStat, this`pasteTimeConsumingStat
      ensures Valid() && Stats() == Reported(old(Stats()), stat)
    {
      hide InitTimeMap, ZeroCounters, Counted, CountersShape;
      ReportKeepsShape(Stats(), stat);
      if copyTimeConsumingStat == [] {
        InitializeTimeConsuming(INIT_COPY_TIME_SONSUMING);
      }
      if pasteTimeConsumingStat == [] {
        InitializeTimeConsuming(INIT_PASTE_TIME_SONSUMING);
      }
      assert copyTimeConsumingStat == Ready(old(copyTimeConsumingStat));
      assert pasteTimeConsumingStat == Ready(old(pasteTimeConsumingStat));
      assert TableShape(copyTimeConsumingStat) && TableShape(pasteTimeConsumingStat) by {
        ReadyKeepsSum(old(copyTimeConsumingStat), CopyState);
        ReadyKeepsSum(old(pasteTimeConsumingStat), PasteState);
      }
      if stat.state == SPS_PASTE_STATE {
        if stat.data in dataMap {
          CopyTimeConsuming(stat, dataMap[stat.data]);
        }
      } else if stat.state == SPS_COPY_STATE {
        if stat.data in dataMap {
          PasteTimeConsuming(stat, dataMap[stat.data]);
        }
      }
    }

    /** Writes one event per row; no key is ever missing from a row. */
    method ReportStatisticEvent(timeConsumingStat: Table, pasteboardState: Label)
      requires TableShape(timeConsumingStat)
      modifies this`rows
      ensures rows == old(rows) + RowsOf(timeConsumingStat, pasteboardState)
    {
      hide GetDataLevel;
      if timeConsumingStat == [] {
        return;
      }
      for i := 0 to |timeConsumingStat|
        invariant rows == old(rows) + RowsOf(timeConsumingStat, pasteboardState)[..i]
      {
        var cells := [];
        for j := 0 to TIME_LEVEL_NUMBERS
          invariant cells == CellsOf(timeConsumingStat[i])[..j]
        {
          cells := cells + [timeConsumingStat[i][j]];
        }
        assert cells == CellsOf(timeConsumingStat[i]);
        rows := rows + [Row(pasteboardState, GetDataLevel(i), cells)];
      }
    }

    method InvokeTimeConsuming()
      requires Valid()
      modifies this`copyTimeConsumingStat, this`pasteTimeConsumingStat, this`rows
      ensures Valid() && Stats() == Flushed(old(Stats()))
    {
      ReportStatisticEvent(copyTimeConsumingStat, CopyState);
      copyTimeConsumingStat := [];
      ReportStatisticEvent(pasteTimeConsumingStat, PasteState);
      pasteTimeConsumingStat := [];
    }

    method ReportPasteboardBehaviour(state: int, app: string)
      modifies this`copyPasteboardBehaviour, this`pastePasteboardBehaviour
      ensures Behaviour() == Noted(old(Behaviour()), state, app)
    {
      if state == BPS_COPY_STATE {
        if app in copyPasteboardBehaviour {
          copyPasteboardBehaviour := copyPasteboardBehaviour[app := copyPasteboardBehaviour[app] + 1];
        } else {
          copyPasteboardBehaviour := copyPasteboardBehaviour[app := 1];
        }
      } else if state == BPS_PASTE_STATE {
        if app in pastePasteboardBehaviour {
          pastePasteboardBehaviour := pastePasteboardBehaviour[app := pastePasteboardBehaviour[app] + 1];
        } else {
          pastePasteboardBehaviour := pastePasteboardBehaviour[app := 1];
        }
      }
    }

    /**
     Reports the map under the given label and clears it; an empty map is left alone. The outcome is
     `PastLastSlot` when the fill loop would write past the tenth slot, undefined in the source.
     */
    method ReportBehaviour(behaviour: Counts, pasteboardState: Label) returns (outcome: Outcome, cleared: Counts)
      modifies this`reports
      ensures outcome.NothingNoted? <==> behaviour == map[]
      ensures outcome.PastLastSlot? <==> |behaviour| > TOTAL_APP_NUMBERS
      ensures outcome.Shown? ==>
                IsTopTen(behaviour, outcome.slots)
                && reports == old(reports) + [AppReport(pasteboardState, outcome.slots)]
      ensures !outcome.Shown? ==> reports == old(reports)
      ensures !outcome.PastLastSlot? ==> cleared == map[]
    {
      if behaviour == map[] {
        return NothingNoted, map[];
      }
      var vec := Collect(behaviour);
      var sorted := SortByCount(behaviour, vec);
      var appPackName := FillSlots(sorted);
      if appPackName.None? {
        return PastLastSlot, behaviour;
      }
      reports := reports + [AppReport(pasteboardState, appPackName.value)];
      return Shown(appPackName.value), map[];
    }

    /** Both reports; `defined` is false when one of the fill loops would leave its slots. */
    method InvokePasteBoardBehaviour() returns (defined: bool, copySlots: seq<Slot>, pasteSlots: seq<Slot>)
      modifies this`copyPasteboardBehaviour, this`pastePasteboardBehaviour, this`reports
      ensures defined <==> |old(copyPasteboardBehaviour)| <= TOTAL_APP_NUMBERS
                           && |old(pastePasteboardBehaviour)| <= TOTAL_APP_NUMBERS
      ensures defined ==>
                Allowed(old(Behaviour()), FlushApps(copySlots, pasteSlots))
                && Behaviour() == Did(old(Behaviour()), FlushApps(copySlots, pasteSlots))
    {
      hide IsTopTen;
      defined, copySlots, pasteSlots := true, [], [];
      if copyPasteboardBehaviour != map[] {
        var outcome, cleared := ReportBehaviour(copyPasteboardBehaviour, CopyState);
        if outcome.PastLastSlot? {
          return false, [], [];
        }
        copySlots, copyPasteboardBehaviour := outcome.slots, cleared;
      }
      if pastePasteboardBehaviour != map[] {
        var outcome, cleared := ReportBehaviour(pastePasteboardBehaviour, PasteState);
        if outcome.PastLastSlot? {
          return false, [], [];
        }
        pasteSlots, pastePasteboardBehaviour := outcome.slots, cleared;
      }
    }
  }

  /** Distinct apps of the map with their counts, in any order. */
  ghost predicate Lists(m: Counts, vec: seq<Slot>)
  {
    (forall i :: 0 <= i < |vec| ==> vec[i].App? && vec[i].name in m && m[vec[i].name] == vec[i].count)
    && (forall i, k :: 0 <= i < k < |vec| ==> vec[i].name != vec[k].name)
  }

  /** Copies the entries of the map into a vector, in whatever order it is iterated. */
  method Collect(behaviour: Counts) returns (vec: seq<Slot>)
    ensures |vec| == |behaviour| && Lists(behaviour, vec)
  {
    vec := [];
    var left := behaviour;
    while left != map[]
      invariant forall a :: a in left ==> a in behaviour
      invariant |vec| + |left| == |behaviour|
      invariant Lists(behaviour, vec) && forall i :: 0 <= i < |vec| ==> vec[i].name !in left
      decreases |left|
    {
      var app :| app in left;
      assert left.Keys == (left - {app}).Keys + {app};
      vec := vec + [App(app, behaviour[app])];
      left := left - {app};
    }
  }

  ghost predicate Descending(s: seq<Slot>)
  {
    (forall i :: 0 <= i < |s| ==> s[i].App?) && forall i, k :: 0 <= i < k < |s| ==> s[i].count >= s[k].count
  }

  lemma InsertKeepsOrder(s: seq<Slot>, at: nat, x: Slot)
    requires Descending(s) && x.App? && at <= |s|
    requires at > 0 ==> s[at - 1].count >= x.count
    requires at < |s| ==> s[at].count < x.count
    ensures Descending(s[..at] + [x] + s[at..])
  {
  }

  lemma InsertKeepsApps(m: Counts, s: seq<Slot>, at: nat, x: Slot, rest: seq<Slot>)
    requires at <= |s| && Lists(m, s + [x] + rest)
    ensures Lists(m, s[..at] + [x] + s[at..] + rest)
  {
    var before, after := s + [x] + rest, s[..at] + [x] + s[at..] + rest;
    var from := (i: nat) => if i < at then i else if i == at then |s| else if i <= |s| then i - 1 else i;
    assert forall i :: 0 <= i < |after| ==> after[i] == before[from(i)];
    assert forall i, k :: 0 <= i < k < |after| ==> from(i) != from(k);
  }

  /** `std::sort` by descending count: the same apps, ordered; how it breaks ties is its own affair. */
  method SortByCount(m: Counts, vec: seq<Slot>) returns (sorted: seq<Slot>)
    requires |vec| == |m| && Lists(m, vec)
    ensures Ranking(m, sorted)
  {
    sorted := [];
    assert sorted + vec[0..] == vec;
    for i := 0 to |vec|
      invariant |sorted| == i && Descending(sorted) && Lists(m, sorted + vec[i..])
    {
      var x := vec[i];
      assert sorted + vec[i..] == sorted + [x] + vec[i + 1..];
      assert (sorted + vec[i..])[i] == x;
      var at := i;
      while at > 0 && sorted[at - 1].count < x.count
        invariant at <= i && (at < i ==> sorted[at].count < x.count)
      {
        at := at - 1;
      }
      InsertKeepsOrder(sorted, at, x);
      InsertKeepsApps(m, sorted, at, x, vec[i + 1..]);
      sorted := sorted[..at] + [x] + sorted[at..];
    }
    assert sorted + vec[|vec|..] == sorted;
  }

  /** The fill loop; None when it would write past the tenth slot. */
  method FillSlots(sorted: seq<Slot>) returns (slots: Option<seq<Slot>>)
    ensures slots.Some? <==> |sorted| <= TOTAL_APP_NUMBERS
    ensures slots.Some? ==>
              |slots.value| == TOTAL_APP_NUMBERS && slots.value[..|sorted|] == sorted
              && forall k :: |sorted| <= k < TOTAL_APP_NUMBERS ==> slots.value[k] == Default
  {
    var appPackName := [];
    for i := 0 to TOTAL_APP_NUMBERS
      invariant appPackName == seq(i, _ => Default)
    {
      appPackName := appPackName + [Default];
    }
    for j := 0 to |sorted|
      invariant j <= TOTAL_APP_NUMBERS == |appPackName|
      invariant appPackName[..j] == sorted[..j]
      invariant forall k :: j <= k < TOTAL_APP_NUMBERS ==> appPackName[k] == Default
    {
      if j >= TOTAL_APP_NUMBERS {
        return None;
      }
      appPackName := appPackName[j := sorted[j]];
    }
    return Some(appPackName);
  }
}
