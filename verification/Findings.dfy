/** Inputs on which the stream does not do what its documentation says. */
module Findings {
  import opened Sequences
  import opened Contract
  import opened Batching
  import opened BatchingFacts
  import opened BatcherInvariant
  import opened Walking
  import opened StreamTheorems
  import opened Revisiting
  import opened WholeRuns
  import opened DenseWalks
  import opened GapRefinement

  /** A cell in column A. */
  function At(row: RowIndex, value: int): Arrival {
    Arrival(row, 0, Plain(Int(value)), None, None)
  }

  function RowAt(row: RowIndex, value: int): Row {
    Row(row, [CellData(Int(value), None, None)])
  }

  /** No header row, no table, a clock that never runs out. */
  function Patient(maxRows: nat, tie: (Row, Row) -> bool): Setup {
    Setup(Configure(maxRows, k => false, tie), None, 0, false)
  }

  /** The walk with `queue` queued and nothing sent. */
  function Unsent(row: RowIndex, value: int, queue: seq<Row>, pushes: nat): Walk {
    Walk(true, row, RowAt(row, value).values, Batcher(queue, None, None, pushes, None), [Started], Running)
  }

  lemma PlacedFirst(row: RowIndex, value: int)
    ensures Placed([], 0, CellData(Int(value), None, None)) == RowAt(row, value).values
    ensures Carries(CellData(Int(value), None, None))
  {
  }

  predicate Singles(rows: seq<Row>) {
    forall k :: 0 <= k < |rows| ==> Single(rows[k])
  }

  predicate Single(row: Row) {
    |row.values| == 1 && row.values[0] == CellData(row.values[0].value, None, None) && row.values[0].value.Int?
  }

  lemma SmallRows(rows: seq<Row>)
    requires Singles(rows)
    ensures ApproxBytes(rows) <= 14 * |rows|
  {
    if rows == [] {
    } else {
      var v := rows[|rows| - 1].values;
      assert v == [v[0]];
      SumOne(ApproxCellBytes, v[0]);
      SmallRows(rows[..|rows| - 1]);
    }
  }

  /** A push that does not fill the queue. */
  lemma QuietPush(maxRows: nat, tie: (Row, Row) -> bool, queue: seq<Row>, row: Row, pushes: nat)
    requires |queue| + 1 < Patient(maxRows, tie).cfg.cap && |queue| < 8
    requires Enqueue(queue, row) == queue + [row] && Singles(queue) && Single(row)
    ensures Push(Patient(maxRows, tie).cfg, Batcher(queue, None, None, pushes, None), row) ==
            (Batcher(queue + [row], None, None, pushes + 1, None), [])
  {
    SmallRows(queue + [row]);
    hide Enqueue, ApproxBytes, Configure, Flush;
  }

  /** One more cell of the walk, when it does not fill the queue. */
  lemma UnsentStep(s: Setup, maxRows: nat, tie: (Row, Row) -> bool, before: seq<Arrival>, row: RowIndex, value: int,
                   current: RowIndex, held: int, queue: seq<Row>, pushes: nat, row': Row)
    requires s == Patient(maxRows, tie) && |queue| + 1 < s.cfg.cap && |queue| < 8
    requires Walked(s, before) == Unsent(current, held, queue, pushes) && row != current
    requires row' == if row < current then RowAt(row, value) else RowAt(current, held)
    requires Enqueue(queue, row') == queue + [row']
    requires Singles(queue)
    ensures Walked(s, before + [At(row, value)]) ==
            if row < current then Unsent(current, held, queue + [row'], pushes + 1)
            else Unsent(row, value, queue + [row'], pushes + 1)
  {
    WalkedStep(s, before, At(row, value));
    PlacedFirst(row, value);
    QuietPush(maxRows, tie, queue, row', pushes);
    hide Push, Enqueue, Placed, Singles, Configure, Walked;
    assert [Started] + [] == [Started];
  }

  lemma FirstStep(s: Setup, row: RowIndex, value: int)
    requires s.header.None? && !s.useTable
    ensures Walked(s, [At(row, value)]) == Unsent(row, value, [], 0)
  {
    WalkedStep(s, [], At(row, value));
    PlacedFirst(row, value);
    assert [] + [At(row, value)] == [At(row, value)];
  }

  // ---- a row that is sent twice ----

  function RowFiveAgain(first: int, again: int): seq<Arrival> {
    [At(5, first), At(6, 0), At(3, 0)] + [At(5, again)]
  }

  function TwiceQueued(first: int, again: int): seq<Row> {
    [RowAt(5, first), RowAt(3, 0)] + [RowAt(5, again)]
  }

  lemma QueuedTwice(tie: (Row, Row) -> bool, first: int, again: int)
    ensures Walked(Patient(0, tie), RowFiveAgain(first, again)) == Unsent(6, 0, TwiceQueued(first, again), 3)
  {
    var s := Patient(0, tie);
    FirstStep(s, 5, first);
    var one, two := [RowAt(5, first)], [RowAt(5, first), RowAt(3, 0)];
    assert Singles(one) && Singles(two);
    assert Enqueue(one, RowAt(3, 0)) == one + [RowAt(3, 0)];
    assert Enqueue(two, RowAt(5, again)) == two + [RowAt(5, again)];
    assert Enqueue([], RowAt(5, first)) == one;
    hide Enqueue, Singles, Walked, Unsent, RowAt, At;
    UnsentStep(s, 0, tie, [At(5, first)], 6, 0, 5, first, [], 0, RowAt(5, first));
    assert [At(5, first)] + [At(6, 0)] == [At(5, first), At(6, 0)];
    assert [] + one == one;
    UnsentStep(s, 0, tie, [At(5, first), At(6, 0)], 3, 0, 6, 0, one, 1, RowAt(3, 0));
    assert [At(5, first), At(6, 0)] + [At(3, 0)] == [At(5, first), At(6, 0), At(3, 0)];
    assert one + [RowAt(3, 0)] == two;
    UnsentStep(s, 0, tie, [At(5, first), At(6, 0), At(3, 0)], 5, again, 6, 0, two, 2, RowAt(5, again));
  }

  /** Row 5 in two halves: which comes first is up to the sort. */
  function BothFives(tie: (Row, Row) -> bool, first: int, again: int): seq<Row> {
    if tie(RowAt(5, again), RowAt(5, first)) then [RowAt(5, first), RowAt(5, again)]
    else [RowAt(5, again), RowAt(5, first)]
  }

  /** Sorting one more row, told by what the sorted rows end in. */
  lemma SortMore(rows: seq<Row>, row: Row, tie: (Row, Row) -> bool, sorted: seq<Row>, last: Row)
    requires SortRows(rows, tie) == sorted + [last]
    ensures SortRows(rows + [row], tie) ==
            if last.index < row.index || (last.index == row.index && tie(row, last)) then sorted + [last, row]
            else Insert(sorted, row, tie) + [last]
  {
    assert (rows + [row])[..|rows|] == rows;
    assert (sorted + [last])[..|sorted|] == sorted;
    assert sorted + [last] + [row] == sorted + [last, row];
  }

  lemma SortTwo(tie: (Row, Row) -> bool, a: Row, three: Row)
    requires three.index < a.index
    ensures SortRows([a] + [three], tie) == [three] + [a]
  {
    assert SortRows([a], tie) == [] + [a] by {
      assert [a][..0] == [];
    }
    SortMore([a], three, tie, [], a);
  }

  lemma SortThree(tie: (Row, Row) -> bool, a: Row, three: Row, b: Row)
    requires three.index < a.index == b.index
    ensures SortRows([a] + [three] + [b], tie) == [three] + if tie(b, a) then [a, b] else [b, a]
  {
    SortTwo(tie, a, three);
    SortMore([a] + [three], b, tie, [three], a);
    assert Insert([three], b, tie) == [three] + [b];
    hide SortRows, Insert;
    assert [three] + [a] + [b] == [three] + [a, b] && [three] + [b] + [a] == [three] + [b, a];
  }

  lemma SortedTwice(tie: (Row, Row) -> bool, first: int, again: int)
    ensures SortRows(TwiceQueued(first, again) + [RowAt(6, 0)], tie) ==
            [RowAt(3, 0)] + BothFives(tie, first, again) + [RowAt(6, 0)]
  {
    var three, a, b, six := RowAt(3, 0), RowAt(5, first), RowAt(5, again), RowAt(6, 0);
    SortThree(tie, a, three, b);
    assert TwiceQueued(first, again) == [a] + [three] + [b];
    hide SortRows, Insert, RowAt;
    var last, before := if tie(b, a) then b else a, if tie(b, a) then a else b;
    assert [three] + [before, last] == [three, before] + [last];
    SortMore([a] + [three] + [b], six, tie, [three, before], last);
    assert [three, before] + [last, six] == [three] + [before, last] + [six];
  }

  /** Rows 5, 6 and 3, then 5 again: row 5 is queued blind and goes out twice,
      its cells split between the two, so the rows of a completed stream need
      not be strictly ascending. */
  lemma {:induction false} RowsCanRepeat(tie: (Row, Row) -> bool, first: int, again: int)
    ensures var stream := Stream(Patient(0, tie), RowFiveAgain(first, again), false);
            && stream.status.Completed?
            && Sent(stream.events) == [RowAt(3, 0)] + BothFives(tie, first, again) + [RowAt(6, 0)]
            && !Ascending(Sent(stream.events))
  {
    var s := Patient(0, tie);
    var w := Walked(s, RowFiveAgain(first, again));
    QueuedTwice(tie, first, again);
    FinishTwice(s, w, tie, first, again);
    var sent := Sent(Stream(s, RowFiveAgain(first, again), false).events);
    assert sent[1].index == 5 && sent[2].index == 5;
    hide Walked, Finish, FlatMap, Unsent, RowAt, TwiceQueued;
  }

  /** The end of a sheet whose last row fills no batch. */
  lemma QuietFinish(cfg: Config, w: Walk, b: Batcher)
    requires ValidTable(w.batcher.table) && w.status.Running? && w.open && Accepts(w.batcher, w.currentRow)
    requires Push(cfg, w.batcher, Row(w.currentRow, w.values)) == (b, [])
    ensures Finish(cfg, w).status.Completed? && Finish(cfg, w).events == w.events + Flush(cfg, b).1
  {
    hide Push, Flush;
    assert w.events + [] == w.events;
  }

  lemma FinishTwice(s: Setup, w: Walk, tie: (Row, Row) -> bool, first: int, again: int)
    requires s == Patient(0, tie) && w == Unsent(6, 0, TwiceQueued(first, again), 3)
    ensures Finish(s.cfg, w).status.Completed?
    ensures Sent(Finish(s.cfg, w).events) == [RowAt(3, 0)] + BothFives(tie, first, again) + [RowAt(6, 0)]
  {
    var rows := TwiceQueued(first, again) + [RowAt(6, 0)];
    QuietPush(0, tie, TwiceQueued(first, again), RowAt(6, 0), 3);
    hide Push, Enqueue, Flush, SortRows, FlatMap, Singles, TwiceQueued, BothFives, Finish, RowAt;
    SortedTwice(tie, first, again);
    QuietFinish(s.cfg, w, Batcher(rows, None, None, 4, None));
    SaysOne(Started);
    FlushedEvents(s.cfg, Batcher(rows, None, None, 4, None), [Started]);
    assert [] + SortRows(rows, tie) == SortRows(rows, tie);
  }

  // ---- a blank that has the last word ----

  /** A value and then a blank, in one cell. */
  function ValueThenBlank(): seq<Arrival> {
    [At(0, 1), Arrival(0, 0, Plain(Empty), None, None)]
  }

  /** The row-by-row walk keeps the blank and the stream keeps the value. */
  lemma {:induction false} BlankCanWin(s: Setup, dense: seq<DenseRow>)
    requires PlainSetup(s)
    ensures var arrivals := ValueThenBlank();
            && SortedArrivals(arrivals) && Bare(arrivals) && BlankWins(arrivals, 0, 1)
            && DenseGrid(DenseCells(arrivals), [DenseRow(0, [Empty])])
            && Shown(Sent(Stream(s, arrivals, false).events), 0, 0) == Some(CellData(Int(1), None, None))
            && (DenseGrid(DenseCells(arrivals), dense) ==>
                  !SameSheet(Expand(Items(Stream(s, arrivals, false).events)), dense))
  {
    var arrivals := ValueThenBlank();
    BlankIsDense();
    BlankIsDropped(s);
    assert BlankWins(arrivals, 0, 1) && SortedArrivals(arrivals) && Bare(arrivals);
    hide DenseGrid, SortedArrivals, Bare, DenseCells, At, BlankWins, SameSheet, Expand, Stream, FlatMap, Shown;
    if DenseGrid(DenseCells(arrivals), dense) {
      GapFormRefinesRows(s, arrivals, dense);
    }
  }

  lemma BlankIsDense()
    ensures DenseGrid(DenseCells(ValueThenBlank()), [DenseRow(0, [Empty])])
  {
    var cells := DenseCells(ValueThenBlank());
    var value := DenseCell(0, 0, Int(1));
    assert [] + [value] == [value] && cells == [value] + [DenseCell(0, 0, Empty)];
    assert HasValue(cells, 0) by { assert cells[0] == value; }
    hide DenseCells, LastAt;
    forall col: nat
      ensures LastAt(cells, 0, col) == Empty
    {
      MoreCells([], value, 0);
      MoreCells([value], DenseCell(0, 0, Empty), 0);
      NothingAt(0, col);
    }
  }

  lemma NothingAt(row: nat, col: nat)
    ensures LastAt([], row, col) == Empty
  {
  }

  lemma BlankIsDropped(s: Setup)
    requires PlainSetup(s)
    ensures Shown(Sent(Stream(s, ValueThenBlank(), false).events), 0, 0) == Some(CellData(Int(1), None, None))
  {
    var arrivals := ValueThenBlank();
    assert SortedArrivals(arrivals) && Bare(arrivals);
    SortedCompletes(s, arrivals);
    SortedCells(s, arrivals);
    GroupedRun(s, arrivals);
    StreamKeepsValues(s, arrivals, 0, 0);
    var cells := DenseCells(arrivals);
    assert cells == [DenseCell(0, 0, Int(1)), DenseCell(0, 0, Empty)];
    assert cells[..1] == [DenseCell(0, 0, Int(1))];
    hide Stream, FlatMap, Shown, Cells, Latest, RowGrouped, AllTidy, Ascending;
  }
}
