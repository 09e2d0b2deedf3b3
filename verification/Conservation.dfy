/** No grouping at all: whatever the order of the arrivals, a completed stream
    delivers each cell once, even when a row is queued and sent twice. */
module Conservation {
  import opened Sequences
  import opened Contract
  import opened Batching
  import opened BatchingFacts
  import opened BatcherInvariant
  import opened Walking
  import opened WalkInvariant
  import opened StreamTheorems

  /** The populated cells of one row of values. */
  function RowCells(row: Row): multiset<Cell>
    decreases |row.values|
  {
    if row.values == [] then multiset{}
    else
      var n := |row.values| - 1;
      RowCells(Row(row.index, row.values[..n])) +
      if Carries(row.values[n]) then multiset{Cell(row.index, n, row.values[n])} else multiset{}
  }

  function AllCells(rows: seq<Row>): multiset<Cell> {
    if rows == [] then multiset{}
    else AllCells(rows[..|rows| - 1]) + RowCells(rows[|rows| - 1])
  }

  lemma {:induction false} RowCellsCount(row: Row, cell: Cell)
    ensures RowCells(row)[cell] ==
            if cell.row == row.index && CellAt(row.values, cell.col) == Some(cell.data) then 1 else 0
    decreases |row.values|
  {
    if row.values == [] {
    } else {
      var n := |row.values| - 1;
      RowCellsCount(Row(row.index, row.values[..n]), cell);
    }
  }

  lemma {:induction false} AllCellsAppend(a: seq<Row>, b: seq<Row>)
    ensures AllCells(a + b) == AllCells(a) + AllCells(b)
  {
    if b == [] {
      assert a + b == a;
    } else {
      assert (a + b)[..|a + b| - 1] == a + b[..|b| - 1];
      AllCellsAppend(a, b[..|b| - 1]);
    }
  }

  lemma NoRows()
    ensures AllCells([]) == multiset{}
  {
  }

  lemma AllCellsOne(row: Row)
    ensures AllCells([row]) == RowCells(row)
  {
    assert [row][..0] == [];
  }

  lemma {:induction false} AllCellsInsert(rows: seq<Row>, row: Row, tie: (Row, Row) -> bool)
    ensures AllCells(Insert(rows, row, tie)) == AllCells(rows) + RowCells(row)
  {
    if rows == [] {
      AllCellsOne(row);
    } else {
      var prefix, last := rows[..|rows| - 1], rows[|rows| - 1];
      AllCellsAppend(rows, [row]);
      AllCellsOne(row);
      if !(last.index < row.index || (last.index == row.index && tie(row, last))) {
        AllCellsInsert(prefix, row, tie);
        AllCellsAppend(Insert(prefix, row, tie), [last]);
        AllCellsOne(last);
      }
    }
  }

  /** Sorting moves cells, it does not make or lose any. */
  lemma {:induction false} AllCellsSort(rows: seq<Row>, tie: (Row, Row) -> bool)
    ensures AllCells(SortRows(rows, tie)) == AllCells(rows)
  {
    if rows == [] {
    } else {
      var prefix, last := rows[..|rows| - 1], rows[|rows| - 1];
      AllCellsSort(prefix, tie);
      AllCellsInsert(SortRows(prefix, tie), last, tie);
    }
  }

  lemma Rearranged<T>(a: multiset<T>, b: multiset<T>, c: multiset<T>, d: multiset<T>, e: multiset<T>)
    requires a + b == c + d
    ensures (a + e) + b == (c + e) + d
  {
    assert (a + e) + b == (a + b) + e;
    assert (c + e) + d == (c + d) + e;
  }

  lemma Cancelled<T>(a: multiset<T>, b: multiset<T>, c: multiset<T>, d: multiset<T>)
    requires a + c == b + (c + d)
    ensures a == b + d
  {
    forall x: T
      ensures a[x] == (b + d)[x]
    {
      assert (a + c)[x] == (b + (c + d))[x];
    }
  }

  lemma {:induction false} AllCellsUpdate(rows: seq<Row>, k: nat, row: Row)
    requires k < |rows|
    ensures AllCells(rows[k := row]) + RowCells(rows[k]) == AllCells(rows) + RowCells(row)
  {
    hide RowCells;
    var n := |rows| - 1;
    var q := rows[k := row];
    if k == n {
      assert q[..n] == rows[..n];
    } else {
      assert q[..n] == rows[..n][k := row] && q[n] == rows[n];
      AllCellsUpdate(rows[..n], k, row);
      Rearranged(AllCells(q[..n]), RowCells(rows[k]), AllCells(rows[..n]), RowCells(row), RowCells(rows[n]));
    }
  }

  lemma {:induction false} CellIsIn(rows: seq<Row>, k: nat, col: nat)
    requires k < |rows|
    ensures CellAt(rows[k].values, col).Some? ==>
              Cell(rows[k].index, col, CellAt(rows[k].values, col).value) in AllCells(rows)
  {
    var n := |rows| - 1;
    if k == n {
      if CellAt(rows[k].values, col).Some? {
        RowCellsCount(rows[k], Cell(rows[k].index, col, rows[k].values[col]));
      }
    } else {
      CellIsIn(rows[..n], k, col);
    }
  }

  // ---- cells placed and merged ------------------------------------------------------

  lemma PlacedAt(values: seq<CellData>, col: nat, data: CellData, c: nat)
    requires Carries(data)
    ensures CellAt(Placed(values, col, data), c) == if c == col then Some(data) else CellAt(values, c)
  {
  }

  lemma PlacedCells(index: RowIndex, values: seq<CellData>, col: nat, data: CellData)
    requires Carries(data) && CellAt(values, col) == None
    ensures RowCells(Row(index, Placed(values, col, data))) ==
            RowCells(Row(index, values)) + multiset{Cell(index, col, data)}
  {
    var placed := Row(index, Placed(values, col, data));
    forall cell: Cell
      ensures RowCells(placed)[cell] == (RowCells(Row(index, values)) + multiset{Cell(index, col, data)})[cell]
    {
      hide RowCells, CellAt, Placed;
      RowCellsCount(placed, cell);
      RowCellsCount(Row(index, values), cell);
      PlacedAt(values, col, data, cell.col);
    }
  }

  lemma MergedCells(index: RowIndex, into: seq<CellData>, from: seq<CellData>)
    requires forall c: nat :: CellAt(into, c) == None || CellAt(from, c) == None
    ensures RowCells(Row(index, Merge(into, from))) == RowCells(Row(index, into)) + RowCells(Row(index, from))
  {
    var merged := Row(index, Merge(into, from));
    forall cell: Cell
      ensures RowCells(merged)[cell] == (RowCells(Row(index, into)) + RowCells(Row(index, from)))[cell]
    {
      RowCellsCount(merged, cell);
      RowCellsCount(Row(index, into), cell);
      RowCellsCount(Row(index, from), cell);
      MergeShows(into, from, cell.col);
    }
  }

  /** No queued row of this index holds a cell where `row` does. */
  ghost predicate SlotsFree(rows: seq<Row>, row: Row) {
    forall k, c: nat :: 0 <= k < |rows| && rows[k].index == row.index ==>
                          CellAt(rows[k].values, c) == None || CellAt(row.values, c) == None
  }

  lemma BelowSlots(rows: seq<Row>, row: Row)
    requires Below(rows, row.index)
    ensures SlotsFree(rows, row)
  {
  }

  lemma EnqueueCells(rows: seq<Row>, row: Row)
    requires SlotsFree(rows, row)
    ensures AllCells(Enqueue(rows, row)) == AllCells(rows) + RowCells(row)
  {
    hide RowCells, AllCells, Merge;
    if rows != [] && row.index <= rows[|rows| - 1].index && FindRow(rows, row.index).Some? {
      var k := FindRow(rows, row.index).value;
      var merged := Row(row.index, Merge(rows[k].values, row.values));
      MergedCells(row.index, rows[k].values, row.values);
      AllCellsUpdate(rows, k, merged);
      Cancelled(AllCells(rows[k := merged]), AllCells(rows), RowCells(rows[k]), RowCells(row));
    } else {
      AllCellsAppend(rows, [row]);
      AllCellsOne(row);
    }
  }

  // ---- cells in a batcher, and in a walk ---------------------------------------------

  function Held(b: Batcher, events: seq<Event>): multiset<Cell> {
    AllCells(Sent(events)) + AllCells(b.rows)
  }

  lemma FlushHolds(cfg: Config, b: Batcher, events: seq<Event>)
    requires ValidTable(b.table)
    ensures Held(Flush(cfg, b).0, events + Flush(cfg, b).1) == Held(b, events)
  {
    if b.rows == [] {
      assert events + [] == events;
    } else {
      hide FlatMap, Itemize, AllCells, SortRows, FlushFrom;
      var sorted := SortRows(b.rows, cfg.tie);
      FlushedEvents(cfg, b, events);
      NoRows();
      AllCellsAppend(Sent(events), sorted);
      AllCellsSort(b.rows, cfg.tie);
    }
  }

  lemma PushHolds(cfg: Config, b: Batcher, events: seq<Event>, row: Row)
    requires ValidTable(b.table) && SlotsFree(b.rows, row)
    ensures Held(Push(cfg, b, row).0, events + Push(cfg, b, row).1) == Held(b, events) + RowCells(row)
  {
    PushEither(cfg, b, row);
    QueuedHolds(b, events, row);
    hide Held, Push, Flush, Enqueue, RowCells, SlotsFree;
    FlushHolds(cfg, Queued(b, row), events);
    assert events + [] == events;
  }

  lemma QueuedHolds(b: Batcher, events: seq<Event>, row: Row)
    requires SlotsFree(b.rows, row)
    ensures Held(Queued(b, row), events) == Held(b, events) + RowCells(row)
  {
    hide Enqueue, AllCells, RowCells, SlotsFree, FlatMap;
    EnqueueCells(b.rows, row);
  }

  function InHand(w: Walk): multiset<Cell> {
    Held(w.batcher, w.events) + RowCells(Row(w.currentRow, w.values))
  }

  /** No cell on its way to the client is at this cell's position. */
  ghost predicate Fresh(w: Walk, cell: Cell) {
    forall other :: other in InHand(w) ==> other.row != cell.row || other.col != cell.col
  }

  lemma FreshSlots(w: Walk, cell: Cell)
    requires Fresh(w, cell) && Carries(cell.data)
    ensures SlotsFree(w.batcher.rows, LateRow(cell))
  {
    forall k, c: nat | 0 <= k < |w.batcher.rows| && w.batcher.rows[k].index == cell.row
      ensures CellAt(w.batcher.rows[k].values, c) == None || CellAt(LateRow(cell).values, c) == None
    {
      CellIsIn(w.batcher.rows, k, c);
      assert forall other :: other in AllCells(w.batcher.rows) ==> other in InHand(w);
    }
  }

  lemma FreshOpen(w: Walk, cell: Cell)
    requires Fresh(w, cell) && cell.row == w.currentRow
    ensures CellAt(w.values, cell.col) == None
  {
    var row := Row(w.currentRow, w.values);
    CellIsIn([row], 0, cell.col);
    AllCellsOne(row);
    assert forall other :: other in RowCells(row) ==> other in InHand(w);
  }

  lemma LateHolds(cfg: Config, w: Walk, cell: Cell)
    requires ValidTable(w.batcher.table) && Carries(cell.data) && Fresh(w, cell)
    requires Late(w, cell) && Accepts(w.batcher, cell.row)
    ensures InHand(Take(cfg, w, cell)) == InHand(w) + multiset{cell}
  {
    FreshSlots(w, cell);
    hide Fresh, RowCells, Held, Push, SlotsFree;
    PushHolds(cfg, w.batcher, w.events, LateRow(cell));
    PlacedCells(cell.row, [], cell.col, cell.data);
    NoCells(cell.row);
  }

  lemma NoCells(row: RowIndex)
    ensures RowCells(Row(row, [])) == multiset{}
  {
  }

  lemma ForwardHolds(cfg: Config, w: Walk, cell: Cell)
    requires ValidTable(w.batcher.table) && Carries(cell.data) && Below(w.batcher.rows, w.currentRow)
    requires w.open && w.currentRow < cell.row && Accepts(w.batcher, w.currentRow)
    ensures InHand(Take(cfg, w, cell)) == InHand(w) + multiset{cell}
  {
    BelowSlots(w.batcher.rows, Row(w.currentRow, w.values));
    hide RowCells, Held, Push, SlotsFree, Placed;
    PushHolds(cfg, w.batcher, w.events, Row(w.currentRow, w.values));
    PlacedCells(cell.row, [], cell.col, cell.data);
    NoCells(cell.row);
  }

  lemma PlaceHolds(cfg: Config, header: Option<nat>, w: Walk, cell: Cell)
    requires WalkInv(header, w) && Kept(header, cell) && Fresh(w, cell)
    requires !w.open || cell.row == w.currentRow
    ensures InHand(Take(cfg, w, cell)) == InHand(w) + multiset{cell}
  {
    assert !w.open ==> w.values == [];
    hide WalkInv, Placed, Push, Fresh;
    if w.open {
      FreshOpen(w, cell);
    } else {
      NoCells(w.currentRow);
      NoCells(cell.row);
    }
    hide RowCells, Held;
    PlacedCells(cell.row, w.values, cell.col, cell.data);
  }

  /** A kept cell at a fresh position adds itself, once. */
  lemma TakeHolds(cfg: Config, header: Option<nat>, w: Walk, cell: Cell)
    requires WalkInv(header, w) && Kept(header, cell) && Accepts(w.batcher, cell.row)
    requires Fresh(w, cell)
    ensures InHand(Take(cfg, w, cell)) == InHand(w) + multiset{cell}
  {
    assert ValidTable(w.batcher.table);
    hide Wire, Fresh, InHand, Push, Tidy, Placed;
    if Late(w, cell) {
      LateHolds(cfg, w, cell);
    } else if w.open && cell.row != w.currentRow {
      ForwardHolds(cfg, w, cell);
    } else {
      PlaceHolds(cfg, header, w, cell);
    }
  }

  ghost predicate DistinctPositions(cells: seq<Cell>) {
    forall i, j :: 0 <= i < j < |cells| ==> cells[i].row != cells[j].row || cells[i].col != cells[j].col
  }

  lemma PositionsPrefix(cells: seq<Cell>, cell: Cell)
    requires DistinctPositions(cells + [cell])
    ensures DistinctPositions(cells)
    ensures forall other :: other in multiset(cells) ==> other.row != cell.row || other.col != cell.col
  {
    var all := cells + [cell];
    forall i, j | 0 <= i < j < |cells|
      ensures cells[i].row != cells[j].row || cells[i].col != cells[j].col
    {
      assert all[i].row != all[j].row || all[i].col != all[j].col;
    }
    forall other | other in multiset(cells)
      ensures other.row != cell.row || other.col != cell.col
    {
      var i :| 0 <= i < |cells| && cells[i] == other;
      assert all[i].row != all[|cells|].row || all[i].col != all[|cells|].col;
    }
  }

  lemma StepHolds(s: Setup, before: seq<Arrival>, a: Arrival)
    requires Walked(s, before).status.Running? && WalkInv(s.header, Walked(s, before))
    requires !TooLate(s, before, a) && Kept(s.header, NextCell(s, before, a))
    requires InHand(Walked(s, before)) == multiset(Cells(s, before))
    requires DistinctPositions(Cells(s, before) + [NextCell(s, before, a)])
    ensures InHand(Walked(s, before + [a])) == multiset(Cells(s, before) + [NextCell(s, before, a)])
  {
    WalkedStep(s, before, a);
    ReadyInv(s, before, a);
    hide Wire;
    var cell := NextCell(s, before, a);
    PositionsPrefix(Cells(s, before), cell);
    assert InHand(Ready(s, before, a)) == InHand(Walked(s, before));
    TakeHolds(s.cfg, s.header, Ready(s, before, a), cell);
  }

  lemma {:induction false} RunHolds(s: Setup, arrivals: seq<Arrival>)
    requires Walked(s, arrivals).status.Running? && DistinctPositions(Cells(s, arrivals))
    ensures InHand(Walked(s, arrivals)) == multiset(Cells(s, arrivals))
  {
    if arrivals == [] {
      SaysOne(Started);
    } else {
      var before, a := arrivals[..|arrivals| - 1], arrivals[|arrivals| - 1];
      assert before + [a] == arrivals;
      RunInv(s, before);
      StepInv(s, before, a);
      CellsGrow(s, before, a);
      hide WalkInv, InHand, DistinctPositions, TooLate;
      if Kept(s.header, NextCell(s, before, a)) {
        PositionsPrefix(Cells(s, before), NextCell(s, before, a));
        RunHolds(s, before);
        StepHolds(s, before, a);
      } else {
        assert Cells(s, before) + [] == Cells(s, before);
        RunHolds(s, before);
      }
    }
  }

  /** With no hypothesis on the order of the arrivals, only that no position is
      written twice: a completed stream sends each kept cell exactly once and
      nothing else, and row indices never go down. */
  lemma {:induction false} EachCellOnce(s: Setup, arrivals: seq<Arrival>)
    requires Stream(s, arrivals, false).status.Completed?
    requires DistinctPositions(Cells(s, arrivals))
    ensures var sent := Sent(Stream(s, arrivals, false).events);
            AllCells(sent) == multiset(Cells(s, arrivals)) && NonDescending(sent)
  {
    CompletedRan(s, arrivals);
    RunHolds(s, arrivals);
    FinishInv(s.cfg, s.header, Walked(s, arrivals));
    FinishHolds(s.cfg, s.header, Walked(s, arrivals));
  }

  lemma FinishHolds(cfg: Config, header: Option<nat>, w: Walk)
    requires WalkInv(header, w) && w.status.Running?
    ensures Held(Finish(cfg, w).batcher, Finish(cfg, w).events) == InHand(w)
  {
    assert ValidTable(w.batcher.table);
    hide Wire;
    var row := Row(w.currentRow, w.values);
    var w' := if w.open then Pushed(cfg, w, row) else w;
    if w.open {
      PushHolds(cfg, w.batcher, w.events, row);
    }
    FlushHolds(cfg, w'.batcher, w'.events);
  }
}
