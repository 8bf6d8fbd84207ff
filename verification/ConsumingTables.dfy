/**
 The time-consuming statistics: classification of one measurement, the two lazily built 7 by 11
 counter tables, and the rows that a flush emits. Paste measurements are counted in the copy table
 and copy measurements in the paste table, as in the source.
 */
module ConsumingTables {

  const MAX_UINT64 := 0x1_0000_0000_0000_0000

  // State of the pasteboard in a measurement
  const SPS_COPY_STATE := 0
  const SPS_PASTE_STATE := 1

  // Data ranges
  const DR_ZERO_TO_HUNDRED_KB := 0
  const DR_HUNDRED_TO_FIVE_HUNDREDS_KB := 1
  const DR_FIVE_HUNDREDS_TO_THOUSAND_KB := 2
  const DR_ONE_TO_FIVE_MB := 3
  const DR_FIVE_TO_TEN_MB := 4
  const DR_TEN_TO_FIFTY_MB := 5
  const DR_OVER_FIFTY_MB := 6

  const DATA_LEVEL_NUMBERS := 7
  const TIME_LEVEL_NUMBERS := 11

  function CalculateData(size: nat): int
  {
    if size % 1024 == 0 then
      if size < 100 then DR_ZERO_TO_HUNDRED_KB
      else if size < 500 then DR_HUNDRED_TO_FIVE_HUNDREDS_KB
      else DR_FIVE_HUNDREDS_TO_THOUSAND_KB
    else
      var dataSize := size % 1024;
      if dataSize < 5 then DR_ONE_TO_FIVE_MB
      else if dataSize < 10 then DR_FIVE_TO_TEN_MB
      else if dataSize < 50 then DR_TEN_TO_FIFTY_MB
      else DR_OVER_FIFTY_MB
  }

  function CalculateTime(time: nat): int
  {
    if time % 500 < 10 then time % 500 else 10
  }

  datatype Stat = Stat(state: int, data: int, time: int)

  /** The report of one measurement; a clock that steps back wraps around in 64 bits. */
  function Measured(size: nat, state: int, start: nat, end: nat): Stat
  {
    Stat(state, CalculateData(size), CalculateTime((end - start) % MAX_UINT64))
  }

  function InitDataMap(): map<int, int>
  {
    map[DR_ZERO_TO_HUNDRED_KB := 0, DR_HUNDRED_TO_FIVE_HUNDREDS_KB := 1, DR_FIVE_HUNDREDS_TO_THOUSAND_KB := 2,
        DR_ONE_TO_FIVE_MB := 3, DR_FIVE_TO_TEN_MB := 4, DR_TEN_TO_FIFTY_MB := 5, DR_OVER_FIFTY_MB := 6]
  }

  function InitTimeMap(): map<int, int>
  {
    map[0 := 0, 1 := 1, 2 := 2, 3 := 3, 4 := 4, 5 := 5, 6 := 6, 7 := 7, 8 := 8, 9 := 9, 10 := 10]
  }

  type Counters = map<int, int>

  type Table = seq<Counters>

  datatype Label = CopyState | PasteState

  /** One emitted statistic event. */
  datatype Row = Row(tag: Label, level: string, cells: seq<int>)

  datatype Tables = Tables(copy: Table, paste: Table, rows: seq<Row>)

  const NO_TABLES := Tables([], [], [])

  function GetDataLevel(dataLevel: int): string
  {
    if dataLevel == 0 then "ZERO_TO_HUNDRED_KB"
    else if dataLevel == 1 then "HUNDRED_TO_FIVE_HUNDREDS_KB"
    else if dataLevel == 2 then "FIVE_HUNDREDS_TO_THOUSAND_KB"
    else if dataLevel == 3 then "ONE_TO_FIVE_MB"
    else if dataLevel == 4 then "FIVE_TO_TEN_MB"
    else if dataLevel == 5 then "TEN_TO_FIFTY_MB"
    else if dataLevel == 6 then "OVER_FIFTY_MB"
    else "WRONG_LEVEL"
  }

  lemma LevelNamesDistinct(i: nat, k: nat)
    requires i < DATA_LEVEL_NUMBERS && k < DATA_LEVEL_NUMBERS
    ensures GetDataLevel(i) == GetDataLevel(k) ==> i == k
  {
    assert |GetDataLevel(1)| == 27 && |GetDataLevel(2)| == 28 && |GetDataLevel(0)| == 18;
    assert GetDataLevel(3)[0] == 'O' && GetDataLevel(4)[0] == 'F';
    assert GetDataLevel(5)[0] == 'T' && GetDataLevel(6)[1] == 'V';
    assert GetDataLevel(3)[1] == 'N';
  }

  function ZeroCounters(): Counters
  {
    map[0 := 0, 1 := 0, 2 := 0, 3 := 0, 4 := 0, 5 := 0, 6 := 0, 7 := 0, 8 := 0, 9 := 0, 10 := 0]
  }

  function FreshTable(): Table
  {
    seq(DATA_LEVEL_NUMBERS, _ => ZeroCounters())
  }

  /** One row: the keys 0..10, none of the counts negative. */
  ghost predicate CountersShape(m: Counters)
  {
    forall j :: (j in m <==> 0 <= j < TIME_LEVEL_NUMBERS) && (j in m ==> m[j] >= 0)
  }

  /** A table is empty, or has exactly seven rows with keys 0..10. */
  ghost predicate TableShape(t: Table)
  {
    t == [] || (|t| == DATA_LEVEL_NUMBERS && forall i :: 0 <= i < |t| ==> CountersShape(t[i]))
  }

  ghost predicate Shape(t: Tables)
  {
    TableShape(t.copy) && TableShape(t.paste)
  }

  function Ready(t: Table): Table
  {
    if t == [] then FreshTable() else t
  }

  function Counted(t: Table, dataLevel: nat, timeLevel: int): Table
  {
    if |t| <= dataLevel then t
    else if timeLevel in t[dataLevel] then
      t[dataLevel := t[dataLevel][timeLevel := t[dataLevel][timeLevel] + 1]]
    else t
  }

  predicate KnownLevels(s: Stat)
  {
    s.data in InitDataMap() && s.time in InitTimeMap()
  }

  function CountedStat(t: Table, s: Stat): Table
  {
    if KnownLevels(s) then Counted(t, InitDataMap()[s.data], InitTimeMap()[s.time]) else t
  }

  function Reported(t: Tables, s: Stat): Tables
  {
    Tables(if s.state == SPS_PASTE_STATE then CountedStat(Ready(t.copy), s) else Ready(t.copy),
           if s.state == SPS_COPY_STATE then CountedStat(Ready(t.paste), s) else Ready(t.paste),
           t.rows)
  }

  ghost function CellsOf(m: Counters): seq<int>
    requires CountersShape(m)
  {
    seq(TIME_LEVEL_NUMBERS, j requires 0 <= j < TIME_LEVEL_NUMBERS => m[j])
  }

  ghost function RowsOf(t: Table, tag: Label): seq<Row>
    requires TableShape(t)
  {
    seq(|t|, i requires 0 <= i < |t| => Row(tag, GetDataLevel(i), CellsOf(t[i])))
  }

  ghost function Flushed(t: Tables): Tables
    requires Shape(t)
  {
    Tables([], [], t.rows + RowsOf(t.copy, CopyState) + RowsOf(t.paste, PasteState))
  }

  datatype TableOp = Report(stat: Stat) | Flush

  ghost function TableStep(t: Tables, op: TableOp): (t': Tables)
    requires Shape(t)
    ensures Shape(t')
  {
    match op
    case Report(s) => ReportKeepsShape(t, s); Reported(t, s)
    case Flush => Flushed(t)
  }

  lemma ReportKeepsShape(t: Tables, s: Stat)
    requires Shape(t)
    ensures Shape(Reported(t, s))
    ensures KnownLevels(s) && s.state == SPS_PASTE_STATE ==>
              s.data < |Ready(t.copy)| && s.time in Ready(t.copy)[s.data]
    ensures KnownLevels(s) && s.state == SPS_COPY_STATE ==>
              s.data < |Ready(t.paste)| && s.time in Ready(t.paste)[s.data]
  {
    hide InitDataMap, InitTimeMap, CountersShape;
    LevelMapsAreIdentity(s.data);
    LevelMapsAreIdentity(s.time);
    ReadyHasShape(t.copy);
    ReadyHasShape(t.paste);
    if KnownLevels(s) {
      CountedHasShape(Ready(t.copy), s.data, s.time);
      CountedHasShape(Ready(t.paste), s.data, s.time);
    }
  }

  lemma ReadyHasShape(t: Table)
    requires TableShape(t)
    ensures TableShape(Ready(t)) && |Ready(t)| == DATA_LEVEL_NUMBERS
  {
    assert CountersShape(ZeroCounters());
  }

  lemma CountedHasShape(t: Table, i: nat, j: nat)
    requires TableShape(t) && t != [] && i < DATA_LEVEL_NUMBERS && j < TIME_LEVEL_NUMBERS
    ensures TableShape(Counted(t, i, j)) && j in t[i]
  {
  }

  /** The state after any sequence of reports and flushes; `Shape` is the invariant of all of them. */
  ghost function TablesAfter(ops: seq<TableOp>): (t: Tables)
    ensures Shape(t)
    decreases |ops|
  {
    if ops == [] then NO_TABLES else TableStep(TablesAfter(ops[..|ops| - 1]), ops[|ops| - 1])
  }

  /** A flush of a table emits nothing when it is empty, and else one row for each of the seven levels. */
  lemma {:induction false} FlushEmitsSevenRows(ops: seq<TableOp>)
    ensures var t := TablesAfter(ops); var t' := Flushed(t);
            |t'.rows| - |t.rows| == (if t.copy == [] then 0 else 7) + (if t.paste == [] then 0 else 7)
            && (t.copy == [] <==> t.paste == [])
    decreases |ops|
  {
    if ops != [] {
      FlushEmitsSevenRows(ops[..|ops| - 1]);
    }
  }

  /**
   The rows of a flush, one by one: those of the copy table under CopyState, then those of the paste
   table under PasteState, each level by level with its eleven counts.
   */
  lemma FlushRowByRow(t: Tables, i: nat, j: nat)
    requires Shape(t) && i < 7 && j < 11
    ensures var rows := Flushed(t).rows; var from := |t.rows|;
            t.rows <= rows
            && (t.copy != [] ==>
                  from + i < |rows| && rows[from + i].tag == CopyState && rows[from + i].level == GetDataLevel(i)
                  && |rows[from + i].cells| == 11 && rows[from + i].cells[j] == t.copy[i][j])
    ensures var rows := Flushed(t).rows; var from := |t.rows| + (if t.copy == [] then 0 else 7);
            t.paste != [] ==>
              from + i < |rows| && rows[from + i].tag == PasteState && rows[from + i].level == GetDataLevel(i)
              && |rows[from + i].cells| == 11 && rows[from + i].cells[j] == t.paste[i][j]
    ensures Flushed(t).copy == [] && Flushed(t).paste == []
  {
    hide GetDataLevel;
    var copyRows, pasteRows := RowsOf(t.copy, CopyState), RowsOf(t.paste, PasteState);
    assert |copyRows| == |t.copy| && |pasteRows| == |t.paste|;
    assert Flushed(t).rows == t.rows + copyRows + pasteRows;
  }

  // Conservation, cell by cell.

  ghost function Cell(t: Table, i: nat, j: nat): int
    requires TableShape(t) && i < DATA_LEVEL_NUMBERS && j < TIME_LEVEL_NUMBERS
  {
    if t == [] then 0 else t[i][j]
  }

  /** The sum of column `j` over the emitted rows with this label and level name. */
  ghost function Emitted(rows: seq<Row>, tag: Label, level: string, j: nat): int
    decreases |rows|
  {
    if rows == [] then 0
    else
      var row := rows[|rows| - 1];
      Emitted(rows[..|rows| - 1], tag, level, j)
      + (if row.tag == tag && row.level == level && j < |row.cells| then row.cells[j] else 0)
  }

  /** How many reports of the given state, data level and time level a sequence of operations holds. */
  ghost function Reports(ops: seq<TableOp>, state: int, i: nat, j: nat): nat
    decreases |ops|
  {
    if ops == [] then 0
    else Reports(ops[..|ops| - 1], state, i, j) + (if ops[|ops| - 1] == Report(Stat(state, i, j)) then 1 else 0)
  }

  lemma {:induction false} EmittedConcat(a: seq<Row>, b: seq<Row>, tag: Label, level: string, j: nat)
    ensures Emitted(a + b, tag, level, j) == Emitted(a, tag, level, j) + Emitted(b, tag, level, j)
    decreases |b|
  {
    if b == [] {
      assert a + b == a;
    } else {
      assert (a + b)[..|a + b| - 1] == a + b[..|b| - 1];
      EmittedConcat(a, b[..|b| - 1], tag, level, j);
    }
  }

  /** Rows for the levels in order, all with one label. */
  ghost predicate LevelRows(rows: seq<Row>, own: Label)
  {
    |rows| <= DATA_LEVEL_NUMBERS
    && forall k :: 0 <= k < |rows| ==>
                     rows[k].tag == own && rows[k].level == GetDataLevel(k) && |rows[k].cells| == TIME_LEVEL_NUMBERS
  }

  lemma {:induction false} EmittedInLevelRows(rows: seq<Row>, own: Label, tag: Label, i: nat, j: nat)
    requires LevelRows(rows, own) && i < DATA_LEVEL_NUMBERS && j < TIME_LEVEL_NUMBERS
    ensures Emitted(rows, tag, GetDataLevel(i), j) == if tag == own && i < |rows| then rows[i].cells[j] else 0
    decreases |rows|
  {
    hide GetDataLevel;
    if rows != [] {
      EmittedInLevelRows(rows[..|rows| - 1], own, tag, i, j);
      LevelNamesDistinct(i, |rows| - 1);
    }
  }

  lemma EmittedFromTable(t: Table, own: Label, tag: Label, i: nat, j: nat)
    requires TableShape(t) && i < DATA_LEVEL_NUMBERS && j < TIME_LEVEL_NUMBERS
    ensures Emitted(RowsOf(t, own), tag, GetDataLevel(i), j) == if tag == own then Cell(t, i, j) else 0
  {
    hide GetDataLevel, CountersShape, Emitted;
    EmittedInLevelRows(RowsOf(t, own), own, tag, i, j);
  }

  lemma FlushMovesCells(t: Tables, tag: Label, i: nat, j: nat)
    requires Shape(t) && i < DATA_LEVEL_NUMBERS && j < TIME_LEVEL_NUMBERS
    ensures Emitted(Flushed(t).rows, tag, GetDataLevel(i), j)
            == Emitted(t.rows, tag, GetDataLevel(i), j) + Cell(if tag == CopyState then t.copy else t.paste, i, j)
  {
    var copyRows, pasteRows := RowsOf(t.copy, CopyState), RowsOf(t.paste, PasteState);
    EmittedConcat(t.rows + copyRows, pasteRows, tag, GetDataLevel(i), j);
    EmittedConcat(t.rows, copyRows, tag, GetDataLevel(i), j);
    EmittedFromTable(t.copy, CopyState, tag, i, j);
    EmittedFromTable(t.paste, PasteState, tag, i, j);
  }

  lemma ReadyKeepsCells(t: Table, i: nat, j: nat)
    requires TableShape(t) && i < DATA_LEVEL_NUMBERS && j < TIME_LEVEL_NUMBERS
    ensures Ready(t) != [] && TableShape(Ready(t)) && Cell(Ready(t), i, j) == Cell(t, i, j)
  {
    assert CountersShape(ZeroCounters());
    assert FreshTable()[i] == ZeroCounters();
  }

  lemma LevelMapsAreIdentity(k: int)
    ensures k in InitDataMap() <==> 0 <= k < DATA_LEVEL_NUMBERS
    ensures k in InitTimeMap() <==> 0 <= k < TIME_LEVEL_NUMBERS
    ensures k in InitDataMap() ==> InitDataMap()[k] == k
    ensures k in InitTimeMap() ==> InitTimeMap()[k] == k
  {
  }

  lemma CountedStatCell(t: Table, s: Stat, i: nat, j: nat)
    requires TableShape(t) && t != [] && i < DATA_LEVEL_NUMBERS && j < TIME_LEVEL_NUMBERS
    ensures TableShape(CountedStat(t, s))
    ensures Cell(CountedStat(t, s), i, j) == Cell(t, i, j) + (if s.data == i && s.time == j then 1 else 0)
  {
    hide InitDataMap, InitTimeMap;
    LevelMapsAreIdentity(s.data);
    LevelMapsAreIdentity(s.time);
  }

  lemma ReportCountsOneCell(t: Tables, s: Stat, i: nat, j: nat)
    requires Shape(t) && i < DATA_LEVEL_NUMBERS && j < TIME_LEVEL_NUMBERS
    ensures Shape(Reported(t, s))
    ensures Cell(Reported(t, s).copy, i, j)
            == Cell(t.copy, i, j) + (if s == Stat(SPS_PASTE_STATE, i, j) then 1 else 0)
    ensures Cell(Reported(t, s).paste, i, j)
            == Cell(t.paste, i, j) + (if s == Stat(SPS_COPY_STATE, i, j) then 1 else 0)
  {
    hide Ready, CountedStat, TableShape, Cell;
    ReadyKeepsCells(t.copy, i, j);
    ReadyKeepsCells(t.paste, i, j);
    CountedStatCell(Ready(t.copy), s, i, j);
    CountedStatCell(Ready(t.paste), s, i, j);
  }

  /**
   Conservation over any run, for each cell: what is pending in the copy table plus what rows
   labelled CopyState have shown is the number of paste reports for that cell, and the other way
   round. No report is lost or counted twice; the labels are swapped.
   */
  lemma {:induction false} CellConservation(ops: seq<TableOp>, i: nat, j: nat)
    requires i < DATA_LEVEL_NUMBERS && j < TIME_LEVEL_NUMBERS
    ensures var t := TablesAfter(ops);
            Cell(t.copy, i, j) + Emitted(t.rows, CopyState, GetDataLevel(i), j) == Reports(ops, SPS_PASTE_STATE, i, j)
    ensures var t := TablesAfter(ops);
            Cell(t.paste, i, j) + Emitted(t.rows, PasteState, GetDataLevel(i), j) == Reports(ops, SPS_COPY_STATE, i, j)
    decreases |ops|
  {
    hide GetDataLevel;
    if ops != [] {
      var before, op := ops[..|ops| - 1], ops[|ops| - 1];
      CellConservation(before, i, j);
      match op
      case Report(s) => ReportCountsOneCell(TablesAfter(before), s, i, j);
      case Flush =>
        FlushMovesCells(TablesAfter(before), CopyState, i, j);
        FlushMovesCells(TablesAfter(before), PasteState, i, j);
    }
  }

  /**
   When the labels tell the truth: after a flush, rows labelled CopyState show the copy reports of a
   cell exactly when as many pastes as copies were reported for it.
   */
  lemma LabelsTruthfulIff(ops: seq<TableOp>, i: nat, j: nat)
    requires i < DATA_LEVEL_NUMBERS && j < TIME_LEVEL_NUMBERS
    requires ops != [] && ops[|ops| - 1] == Flush
    ensures var rows := TablesAfter(ops).rows;
            Emitted(rows, CopyState, GetDataLevel(i), j) == Reports(ops, SPS_COPY_STATE, i, j)
            && Emitted(rows, PasteState, GetDataLevel(i), j) == Reports(ops, SPS_PASTE_STATE, i, j)
            <==> Reports(ops, SPS_COPY_STATE, i, j) == Reports(ops, SPS_PASTE_STATE, i, j)
  {
    CellConservation(ops, i, j);
  }

  /** One copy and a flush: the copy shows under the paste label and not under the copy label. */
  lemma CopyShowsAsPaste()
    ensures var rows := TablesAfter([Report(Stat(SPS_COPY_STATE, 0, 0)), Flush]).rows;
            Emitted(rows, CopyState, GetDataLevel(0), 0) == 0 && Emitted(rows, PasteState, GetDataLevel(0), 0) == 1
  {
    var ops := [Report(Stat(SPS_COPY_STATE, 0, 0)), Flush];
    CellConservation(ops, 0, 0);
    assert ops[..1] == [Report(Stat(SPS_COPY_STATE, 0, 0))];
    assert ops[..1][..0] == [];
    assert Reports(ops[..1], SPS_COPY_STATE, 0, 0) == 1;
    assert Reports(ops[..1], SPS_PASTE_STATE, 0, 0) == 0;
  }

  // Conservation of the grand total.

  ghost function SumCells(cells: seq<int>): int
    decreases |cells|
  {
    if cells == [] then 0 else SumCells(cells[..|cells| - 1]) + cells[|cells| - 1]
  }

  /** The sum of all cells of the rows with this label. */
  ghost function SumRows(rows: seq<Row>, tag: Label): int
    decreases |rows|
  {
    if rows == [] then 0
    else
      var row := rows[|rows| - 1];
      SumRows(rows[..|rows| - 1], tag) + (if row.tag == tag then SumCells(row.cells) else 0)
  }

  function TableFor(t: Tables, tag: Label): Table
  {
    if tag == CopyState then t.copy else t.paste
  }

  /** Everything counted under a label: pending in its table or already emitted with it. */
  ghost function Total(t: Tables, tag: Label): int
    requires Shape(t)
  {
    SumRows(t.rows, tag) + SumRows(RowsOf(TableFor(t, tag), tag), tag)
  }

  lemma {:induction false} SumRowsConcat(a: seq<Row>, b: seq<Row>, tag: Label)
    ensures SumRows(a + b, tag) == SumRows(a, tag) + SumRows(b, tag)
    decreases |b|
  {
    if b == [] {
      assert a + b == a;
    } else {
      assert (a + b)[..|a + b| - 1] == a + b[..|b| - 1];
      SumRowsConcat(a, b[..|b| - 1], tag);
    }
  }

  lemma {:induction false} SumCellsUpdate(cells: seq<int>, j: nat, x: int)
    requires j < |cells|
    ensures SumCells(cells[j := x]) == SumCells(cells) - cells[j] + x
    decreases |cells|
  {
    var shorter := cells[..|cells| - 1];
    if j == |cells| - 1 {
      assert cells[j := x][..|cells| - 1] == shorter;
    } else {
      SumCellsUpdate(shorter, j, x);
      assert cells[j := x][..|cells| - 1] == shorter[j := x];
    }
  }

  lemma {:induction false} SumRowsUpdate(rows: seq<Row>, i: nat, row: Row)
    requires i < |rows| && rows[i].tag == row.tag
    ensures SumRows(rows[i := row], row.tag) == SumRows(rows, row.tag) - SumCells(rows[i].cells) + SumCells(row.cells)
    decreases |rows|
  {
    var shorter := rows[..|rows| - 1];
    if i == |rows| - 1 {
      assert rows[i := row][..|rows| - 1] == shorter;
    } else {
      SumRowsUpdate(shorter, i, row);
      assert rows[i := row][..|rows| - 1] == shorter[i := row];
    }
  }

  lemma {:induction false} RowsSumToZero(rows: seq<Row>, tag: Label)
    requires forall i :: 0 <= i < |rows| ==> rows[i].tag != tag || SumCells(rows[i].cells) == 0
    ensures SumRows(rows, tag) == 0
    decreases |rows|
  {
    if rows != [] {
      RowsSumToZero(rows[..|rows| - 1], tag);
    }
  }

  lemma {:induction false} ZeroCellsSumToZero(cells: seq<int>)
    requires forall j :: 0 <= j < |cells| ==> cells[j] == 0
    ensures SumCells(cells) == 0
    decreases |cells|
  {
    if cells != [] {
      ZeroCellsSumToZero(cells[..|cells| - 1]);
    }
  }

  lemma ReadyKeepsSum(t: Table, tag: Label)
    requires TableShape(t)
    ensures TableShape(Ready(t)) && SumRows(RowsOf(Ready(t), tag), tag) == SumRows(RowsOf(t, tag), tag)
  {
    assert CountersShape(ZeroCounters());
    if t == [] {
      var rows := RowsOf(FreshTable(), tag);
      forall i | 0 <= i < |rows|
        ensures SumCells(rows[i].cells) == 0
      {
        ZeroCellsSumToZero(rows[i].cells);
      }
      RowsSumToZero(rows, tag);
      assert RowsOf(t, tag) == [];
    }
  }

  lemma CountAddsOne(t: Table, tag: Label, i: nat, j: nat)
    requires TableShape(t) && t != [] && i < DATA_LEVEL_NUMBERS && j < TIME_LEVEL_NUMBERS
    ensures TableShape(Counted(t, i, j))
    ensures SumRows(RowsOf(Counted(t, i, j), tag), tag) == SumRows(RowsOf(t, tag), tag) + 1
  {
    hide GetDataLevel;
    var m' := t[i][j := t[i][j] + 1];
    var row := Row(tag, GetDataLevel(i), CellsOf(m'));
    assert CellsOf(m') == CellsOf(t[i])[j := t[i][j] + 1];
    SumCellsUpdate(CellsOf(t[i]), j, t[i][j] + 1);
    assert RowsOf(Counted(t, i, j), tag) == RowsOf(t, tag)[i := row];
    SumRowsUpdate(RowsOf(t, tag), i, row);
  }

  /** The state whose reports are counted under a label. */
  function StateUnder(tag: Label): int
  {
    if tag == CopyState then SPS_PASTE_STATE else SPS_COPY_STATE
  }

  /** A report with valid levels adds one under the label its state is counted for, else nothing. */
  lemma ReportAddsToTotal(t: Tables, s: Stat, tag: Label)
    requires Shape(t)
    ensures Shape(Reported(t, s))
    ensures Total(Reported(t, s), tag) == Total(t, tag) + (if KnownLevels(s) && s.state == StateUnder(tag) then 1 else 0)
  {
    hide SumRows, RowsOf, Ready, Counted, TableShape, InitDataMap, InitTimeMap;
    ReportKeepsShape(t, s);
    LevelMapsAreIdentity(s.data);
    LevelMapsAreIdentity(s.time);
    ReadyKeepsSum(TableFor(t, tag), tag);
    if KnownLevels(s) {
      ReadyKeepsCells(TableFor(t, tag), s.data, s.time);
      CountAddsOne(Ready(TableFor(t, tag)), tag, s.data, s.time);
    }
  }

  /** A flush moves counts from pending to emitted and changes no total. */
  lemma FlushKeepsTotal(t: Tables, tag: Label)
    requires Shape(t)
    ensures Total(Flushed(t), tag) == Total(t, tag)
  {
    hide CellsOf, GetDataLevel, CountersShape;
    var copyRows, pasteRows := RowsOf(t.copy, CopyState), RowsOf(t.paste, PasteState);
    SumRowsConcat(t.rows + copyRows, pasteRows, tag);
    SumRowsConcat(t.rows, copyRows, tag);
    RowsSumToZero(if tag == CopyState then pasteRows else copyRows, tag);
    assert RowsOf([], tag) == [];
  }

  /** Every measurement has valid levels, so none of the service's reports is dropped. */
  lemma MeasuredLevelsKnown(size: nat, state: int, start: nat, end: nat)
    ensures KnownLevels(Measured(size, state, start, end))
    ensures Measured(size, state, start, end).data != DR_HUNDRED_TO_FIVE_HUNDREDS_KB
    ensures Measured(size, state, start, end).data == DR_ZERO_TO_HUNDRED_KB <==> size == 0
  {
  }

  /** The data class for every size: which remainder, and which size where the remainder is 0. */
  lemma DataClassOfEverySize(size: nat)
    ensures var low := size % 1024; var range := CalculateData(size);
            0 <= range < 7 && range != 1
            && (range == 0 <==> size == 0)
            && (range == 2 <==> size > 0 && low == 0)
            && (range == 3 <==> low in {1, 2, 3, 4})
            && (range == 4 <==> low in {5, 6, 7, 8, 9})
            && (range == 5 <==> 10 <= low <= 49)
            && (range == 6 <==> 50 <= low)
  {
    if size % 1024 == 0 {
      assert size == 0 || size >= 1024;
    }
  }

  /** The time class for every time: the remainder by 500 up to nine, ten for all others. */
  lemma TimeClassOfEveryTime(time: nat, k: nat)
    ensures k < 10 ==> (CalculateTime(time) == k <==> time % 500 == k)
    ensures CalculateTime(time) == 10 <==> time % 500 >= 10
    ensures 0 <= CalculateTime(time) <= 10
  {
  }

  /** A measurement keeps its state and classifies the size and the time from start to end, in 64 bits. */
  lemma MeasuredFields(size: nat, state: int, start: nat, end: nat)
    ensures var stat := Measured(size, state, start, end);
            stat.state == state && stat.data == CalculateData(size)
            && (start <= end < 0x1_0000_0000_0000_0000 ==> stat.time == CalculateTime(end - start))
            && (end < start <= 0x1_0000_0000_0000_0000 ==>
                  stat.time == CalculateTime(0x1_0000_0000_0000_0000 - (start - end)))
  {
  }

  /** The level names, one by one. */
  lemma LevelNames()
    ensures GetDataLevel(0) == "ZERO_TO_HUNDRED_KB"
    ensures GetDataLevel(1) == "HUNDRED_TO_FIVE_HUNDREDS_KB"
    ensures GetDataLevel(2) == "FIVE_HUNDREDS_TO_THOUSAND_KB"
    ensures GetDataLevel(3) == "ONE_TO_FIVE_MB"
    ensures GetDataLevel(4) == "FIVE_TO_TEN_MB"
    ensures GetDataLevel(5) == "TEN_TO_FIFTY_MB"
    ensures GetDataLevel(6) == "OVER_FIFTY_MB"
  {
  }

  // What the level names say, and when the classification agrees with them.

  const KB := 1024
  const MB := 1024 * 1024

  /** The range whose name covers a size in bytes. */
  ghost function NamedRange(size: nat): int
  {
    if size < 100 * KB then DR_ZERO_TO_HUNDRED_KB
    else if size < 500 * KB then DR_HUNDRED_TO_FIVE_HUNDREDS_KB
    else if size < MB then DR_FIVE_HUNDREDS_TO_THOUSAND_KB
    else if size < 5 * MB then DR_ONE_TO_FIVE_MB
    else if size < 10 * MB then DR_FIVE_TO_TEN_MB
    else if size < 50 * MB then DR_TEN_TO_FIFTY_MB
    else DR_OVER_FIFTY_MB
  }

  /** One KB of text: named ZERO_TO_HUNDRED_KB, classified two ranges up. */
  lemma OneKilobyteIsMisplaced()
    ensures CalculateData(1 * KB) == DR_FIVE_HUNDREDS_TO_THOUSAND_KB && NamedRange(1 * KB) == DR_ZERO_TO_HUNDRED_KB
  {
  }

  /**
   The classification looks at the remainder modulo 1024 where the names speak of the size, so it is
   right exactly for these sizes.
   */
  lemma RangeIsNamedOneIff(size: nat)
    ensures var low := size % KB;
            CalculateData(size) == NamedRange(size)
            <==> size == 0
                 || (500 * KB <= size < MB && low == 0)
                 || (MB <= size < 5 * MB && 1 <= low < 5)
                 || (5 * MB <= size < 10 * MB && 5 <= low < 10)
                 || (10 * MB <= size < 50 * MB && 10 <= low < 50)
                 || (50 * MB <= size && 50 <= low)
    ensures size < 500 * KB ==> (CalculateData(size) == NamedRange(size) <==> size == 0)
  {
    if size % KB == 0 {
      assert size == 0 || size >= KB;
    }
  }

  /** The time level is the number of whole half seconds, ten for ten or more, exactly for these times. */
  lemma TimeLevelIsHalfSecondsIff(time: nat)
    ensures CalculateTime(time) == (if time / 500 < 10 then time / 500 else 10)
            <==> time / 500 == time % 500 || (time / 500 >= 10 && time % 500 >= 10)
  {
  }
}
