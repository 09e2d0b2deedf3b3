/** The gap form against the row-by-row form: expanding the events of the
    incremental stream (`src/service.rs`) gives the rows `walk_dense` emits
    (`bench/src/main.rs`), up to trailing blanks. */
module GapRefinement {
  import opened Sequences
  import opened Contract
  import opened BatcherInvariant
  import opened Walking
  import opened StreamTheorems
  import opened Revisiting
  import opened RowIndices
  import opened WholeRuns
  import opened DenseWalks
  import DictionaryMode

  // ---- the same arrivals, as each walk reads them ----

  /** A cell of the benchmark: a value, and neither a formula nor a style. */
  predicate Bare(arrivals: seq<Arrival>) {
    forall k :: 0 <= k < |arrivals| ==> arrivals[k].formula.None? && arrivals[k].styleId.None?
  }

  function DenseCellOf(a: Arrival): DenseCell {
    DenseCell(a.row, a.col, Convert(None, a).1.data.value)
  }

  function DenseCells(arrivals: seq<Arrival>): (cells: seq<DenseCell>)
    ensures |cells| == |arrivals|
    ensures forall k :: 0 <= k < |arrivals| ==> cells[k] == DenseCellOf(arrivals[k])
  {
    seq(|arrivals|, k requires 0 <= k < |arrivals| => DenseCellOf(arrivals[k]))
  }

  predicate SortedArrivals(arrivals: seq<Arrival>) {
    forall i, j :: 0 <= i < j < |arrivals| ==> arrivals[i].row <= arrivals[j].row
  }

  /** A stream without a dictionary, from the sheet's first populated row. */
  predicate PlainSetup(s: Setup) {
    !s.useTable && s.header.None?
  }

  /** A blank had the last word where a value had been. `walk_dense` then
      keeps the blank, while the stream has dropped it. */
  ghost predicate BlankWins(arrivals: seq<Arrival>, i: nat, j: nat) {
    var cells := DenseCells(arrivals);
    && i < j < |cells|
    && cells[i].row == cells[j].row && cells[i].col == cells[j].col
    && !cells[i].value.Empty? && cells[j].value.Empty?
    && forall k :: j < k < |cells| ==> cells[k].row != cells[j].row || cells[k].col != cells[j].col
  }

  // ---- sorted arrivals always complete ----

  /** Conversion moves no cell. */
  lemma {:induction false} ConvertedRows(useTable: bool, arrivals: seq<Arrival>)
    ensures |Converted(useTable, arrivals)| == |arrivals|
    ensures forall k :: 0 <= k < |arrivals| ==> Converted(useTable, arrivals)[k].row == arrivals[k].row
  {
    if arrivals == [] {
    } else {
      var before := arrivals[..|arrivals| - 1];
      ConvertedRows(useTable, before);
      forall k | 0 <= k < |before|
        ensures Converted(useTable, arrivals)[k].row == arrivals[k].row
      {
        assert before[k] == arrivals[k];
      }
    }
  }

  /** Every kept cell comes from an arrival, in order. */
  predicate RowsInOrder(cells: seq<Cell>) {
    forall i, j :: 0 <= i < j < |cells| ==> cells[i].row <= cells[j].row
  }

  predicate RowsUpTo(cells: seq<Cell>, high: nat) {
    forall i :: 0 <= i < |cells| ==> cells[i].row <= high
  }

  /** Every kept cell comes from an arrival, in order. */
  lemma {:induction false} KeptSorted(header: Option<nat>, cells: seq<Cell>, high: nat)
    requires RowsInOrder(cells) && RowsUpTo(cells, high)
    ensures RowsInOrder(KeptCells(header, cells)) && RowsUpTo(KeptCells(header, cells), high)
  {
    hide Kept;
    if cells == [] {
    } else {
      var n := |cells| - 1;
      KeptSorted(header, cells[..n], cells[n].row);
    }
  }

  lemma SortedCells(s: Setup, arrivals: seq<Arrival>)
    requires SortedArrivals(arrivals)
    ensures var kept := Cells(s, arrivals);
            && RowGrouped(kept)
            && (if arrivals == [] then kept == [] else RowsUpTo(kept, arrivals[|arrivals| - 1].row))
  {
    ConvertedRows(s.useTable, arrivals);
    if arrivals == [] {
    } else {
      KeptSorted(s.header, Converted(s.useTable, arrivals), arrivals[|arrivals| - 1].row);
      hide KeptCells, Converted;
    }
  }

  /** On row-sorted cells no cell ever comes too late. */
  lemma NeverTooLate(s: Setup, arrivals: seq<Arrival>, k: nat)
    requires SortedArrivals(arrivals) && k < |arrivals|
    ensures !TooLate(s, arrivals[..k], arrivals[k])
  {
    var before, a := arrivals[..k], arrivals[k];
    var w := Walked(s, before);
    RunInv(s, before);
    if w.status.Running? {
      RunTracked(s, before);
      CurrentRowArrived(w, Cells(s, before));
      SortedCells(s, before);
      hide RowGrouped, Wire, Tidy, Cells, Walked, Tracked, OnTrail;
    }
  }

  lemma CurrentRowArrived(w: Walk, cells: seq<Cell>)
    requires Tracked(w, cells)
    ensures w.open ==> HasRow(cells, w.currentRow)
  {
    hide HasRow, HeldIndex;
    assert HasRow(cells, w.currentRow) <==> HeldIndex(w.batcher, w.events, w.currentRow) || w.open;
  }

  /** Row-sorted cells always complete, with any header row and with or
      without a table. */
  lemma {:induction false} SortedCompletes(s: Setup, arrivals: seq<Arrival>)
    requires SortedArrivals(arrivals)
    ensures Stream(s, arrivals, false).status.Completed?
  {
    CompletesExactly(s, arrivals, false);
    forall k | 0 <= k < |arrivals|
      ensures !TooLate(s, arrivals[..k], arrivals[k])
    {
      NeverTooLate(s, arrivals, k);
    }
    hide TooLate, Walked;
  }

  // ---- what each walk holds at a position ----

  /** The last value that arrived at a position, blanks set aside. */
  function LastValue(cells: seq<DenseCell>, row: nat, col: nat): Option<Value> {
    if cells == [] then None
    else
      var last := cells[|cells| - 1];
      if last.row == row && last.col == col && !last.value.Empty? then Some(last.value)
      else LastValue(cells[..|cells| - 1], row, col)
  }

  function AsCell(value: Option<Value>): Option<CellData> {
    match value
    case None => None
    case Some(v) => Some(CellData(v, None, None))
  }

  /** One more arrival of a plain stream. */
  lemma PlainCells(s: Setup, before: seq<Arrival>, a: Arrival)
    requires PlainSetup(s)
    ensures var cell := Convert(None, a).1;
            Cells(s, before + [a]) == Cells(s, before) + if Carries(cell.data) then [cell] else []
  {
    DictionaryMode.NoTable(before);
    hide Carries;
    assert (before + [a])[..|before|] == before;
    var cell := Convert(None, a).1;
    var cells := Converted(false, before);
    assert Converted(false, before + [a]) == cells + [cell];
    assert (cells + [cell])[..|cells|] == cells;
  }

  /** The stream keeps the last value. */
  lemma {:induction false} StreamKeepsValues(s: Setup, arrivals: seq<Arrival>, row: nat, col: nat)
    requires PlainSetup(s) && Bare(arrivals)
    ensures Latest(Cells(s, arrivals), row, col) == AsCell(LastValue(DenseCells(arrivals), row, col))
  {
    if arrivals == [] {
    } else {
      var before, a := arrivals[..|arrivals| - 1], arrivals[|arrivals| - 1];
      StreamKeepsValues(s, before, row, col);
      assert before + [a] == arrivals;
      PlainCells(s, before, a);
      assert DenseCells(arrivals)[..|before|] == DenseCells(before);
      hide Cells, Latest;
      LatestAppend(Cells(s, before), Convert(None, a).1, row, col);
      assert Cells(s, before) + [] == Cells(s, before);
    }
  }

  lemma {:induction false} LastArrival(cells: seq<DenseCell>, row: nat, col: nat) returns (j: nat)
    requires !LastAt(cells, row, col).Empty? || LastValue(cells, row, col).Some?
    ensures j < |cells| && cells[j].row == row && cells[j].col == col && cells[j].value == LastAt(cells, row, col)
    ensures forall k :: j < k < |cells| ==> cells[k].row != row || cells[k].col != col
  {
    j := |cells| - 1;
    if cells[j].row != row || cells[j].col != col {
      j := LastArrival(cells[..j], row, col);
    }
  }

  lemma {:induction false} LastValueArrival(cells: seq<DenseCell>, row: nat, col: nat) returns (i: nat)
    requires LastValue(cells, row, col).Some?
    ensures i < |cells| && cells[i].row == row && cells[i].col == col
    ensures cells[i].value == LastValue(cells, row, col).value && !cells[i].value.Empty?
  {
    i := |cells| - 1;
    if cells[i].row != row || cells[i].col != col || cells[i].value.Empty? {
      i := LastValueArrival(cells[..i], row, col);
    }
  }

  lemma {:induction false} ValueArrived(cells: seq<DenseCell>, i: nat)
    requires i < |cells| && !cells[i].value.Empty?
    ensures LastValue(cells, cells[i].row, cells[i].col).Some?
  {
    if i == |cells| - 1 {
    } else {
      ValueArrived(cells[..|cells| - 1], i);
    }
  }

  /** The two walks agree about a position unless a blank won there. */
  lemma {:induction false} AgreeUnlessBlankWins(cells: seq<DenseCell>, row: nat, col: nat)
    ensures LastAt(cells, row, col).Empty? || LastValue(cells, row, col) == Some(LastAt(cells, row, col))
  {
    if cells == [] {
    } else {
      AgreeUnlessBlankWins(cells[..|cells| - 1], row, col);
    }
  }

  lemma BlankWon(arrivals: seq<Arrival>, row: nat, col: nat) returns (i: nat, j: nat)
    requires LastAt(DenseCells(arrivals), row, col).Empty? && LastValue(DenseCells(arrivals), row, col).Some?
    ensures BlankWins(arrivals, i, j)
  {
    var cells := DenseCells(arrivals);
    j := LastArrival(cells, row, col);
    i := LastValueArrival(cells, row, col);
  }

  lemma {:induction false} LastWord(cells: seq<DenseCell>, j: nat)
    requires j < |cells|
    requires forall k :: j < k < |cells| ==> cells[k].row != cells[j].row || cells[k].col != cells[j].col
    ensures LastAt(cells, cells[j].row, cells[j].col) == cells[j].value
  {
    if j == |cells| - 1 {
    } else {
      LastWord(cells[..|cells| - 1], j);
    }
  }

  // ---- expanding the events ----

  function ValuesOf(values: seq<CellData>): (r: seq<Value>)
    ensures |r| == |values| && forall k :: 0 <= k < |values| ==> r[k] == values[k].value
  {
    seq(|values|, k requires 0 <= k < |values| => values[k].value)
  }

  function EmptyRows(first: nat, count: nat): (r: seq<DenseRow>)
    ensures |r| == count && forall k :: 0 <= k < count ==> r[k] == DenseRow(first + k, [])
  {
    seq(count, k requires 0 <= k => DenseRow(first + k, []))
  }

  function ExpandItem(item: Item): seq<DenseRow> {
    match item
    case RowItem(row) => [DenseRow(row.index, ValuesOf(row.values))]
    case GapItem(first, count) => EmptyRows(first, count)
  }

  /** Row by row, with a row for each one a gap stands for. */
  function Expand(items: seq<Item>): seq<DenseRow> {
    FlatMap(ExpandItem, items)
  }

  function ValueShown(rows: seq<Row>, row: nat, col: nat): Value {
    match Shown(rows, row, col)
    case None => Empty
    case Some(data) => data.value
  }

  ghost predicate Shows(expanded: seq<DenseRow>, rows: seq<Row>) {
    forall i, col: nat :: 0 <= i < |expanded| ==>
                            ValueIn(expanded[i].values, col) == ValueShown(rows, expanded[i].index, col)
  }

  ghost predicate Spans(expanded: seq<DenseRow>, rows: seq<Row>) {
    if rows == [] then expanded == []
    else
      && expanded != [] && Consecutive(expanded)
      && expanded[0].index == rows[0].index
      && expanded[|expanded| - 1].index == rows[|rows| - 1].index
  }

  function GapRows(row: nat, next: Option<nat>): seq<DenseRow> {
    if next.Some? && next.value < row then EmptyRows(next.value, row - next.value) else []
  }

  /** Expanding one more row: the rows its gap stands for, then the row. */
  lemma ExpandLast(items: seq<Item>, next: Option<nat>, row: Row)
    ensures Expand(items + GapBefore(row.index, next) + [RowItem(row)]) ==
            Expand(items) + GapRows(row.index, next) + [DenseRow(row.index, ValuesOf(row.values))]
  {
    var gap := GapBefore(row.index, next);
    FlatMapAppend(ExpandItem, items + gap, [RowItem(row)]);
    FlatMapAppend(ExpandItem, items, gap);
    FlatMapOne(ExpandItem, RowItem(row));
    if next.Some? && next.value < row.index {
      FlatMapOne(ExpandItem, gap[0]);
    }
  }

  lemma {:induction false} ExpandedRows(rows: seq<Row>)
    requires Ascending(rows)
    ensures var expanded := Expand(Itemize(rows, None)); Spans(expanded, rows) && Shows(expanded, rows)
  {
    if rows == [] {
    } else {
      var prefix, last := rows[..|rows| - 1], rows[|rows| - 1];
      ExpandedRows(prefix);
      ExpandLast(Itemize(prefix, None), NextAfter(prefix, None), last);
      LastExpanded(rows, Expand(Itemize(prefix, None)));
      hide Expand, Spans, Shows, GapBefore, GapRows, ValuesOf, NextAfter;
    }
  }

  lemma LastExpanded(rows: seq<Row>, before: seq<DenseRow>)
    requires rows != [] && Ascending(rows)
    requires var prefix := rows[..|rows| - 1]; Spans(before, prefix) && Shows(before, prefix)
    ensures var prefix, last := rows[..|rows| - 1], rows[|rows| - 1];
            var expanded :=
              before + GapRows(last.index, NextAfter(prefix, None)) + [DenseRow(last.index, ValuesOf(last.values))];
            Spans(expanded, rows) && Shows(expanded, rows)
  {
    var prefix, last := rows[..|rows| - 1], rows[|rows| - 1];
    var gap := GapRows(last.index, NextAfter(prefix, None));
    var expanded := before + gap + [DenseRow(last.index, ValuesOf(last.values))];
    assert Spans(expanded, rows) by {
      hide Shows, ValuesOf;
    }
    forall i, col: nat | 0 <= i < |expanded|
      ensures ValueIn(expanded[i].values, col) == ValueShown(rows, expanded[i].index, col)
    {
      LastExpandedAt(rows, before, i, col);
    }
  }

  lemma LastExpandedAt(rows: seq<Row>, before: seq<DenseRow>, i: nat, col: nat)
    requires rows != [] && Ascending(rows)
    requires var prefix := rows[..|rows| - 1]; Spans(before, prefix) && Shows(before, prefix)
    requires i <= |before| + |GapRows(rows[|rows| - 1].index, NextAfter(rows[..|rows| - 1], None))|
    ensures var prefix, last := rows[..|rows| - 1], rows[|rows| - 1];
            var expanded :=
              before + GapRows(last.index, NextAfter(prefix, None)) + [DenseRow(last.index, ValuesOf(last.values))];
            ValueIn(expanded[i].values, col) == ValueShown(rows, expanded[i].index, col)
  {
    var prefix, last := rows[..|rows| - 1], rows[|rows| - 1];
    var gap := GapRows(last.index, NextAfter(prefix, None));
    var expanded := before + gap + [DenseRow(last.index, ValuesOf(last.values))];
    if i < |before| {
      assert before[i].index < last.index;
    } else if i < |before| + |gap| {
      ShownAbsent(rows, expanded[i].index, col);
    } else {
      ShownAbsent(prefix, last.index, col);
    }
  }

  // ---- the two forms ----

  /** The rows that hold a value anywhere are those the stream sends from and
      to. */
  ghost predicate SameRowsHold(rows: seq<Row>, cells: seq<DenseCell>) {
    && (forall row: nat :: HasValue(cells, row) ==>
          rows != [] && rows[0].index <= row <= rows[|rows| - 1].index)
    && (rows != [] ==> HasValue(cells, rows[0].index) && HasValue(cells, rows[|rows| - 1].index))
  }

  /** What a stream of bare cells has sent, as values. */
  ghost predicate ShowsValues(rows: seq<Row>, cells: seq<DenseCell>) {
    forall row: nat, col: nat :: Shown(rows, row, col) == AsCell(LastValue(cells, row, col))
  }

  lemma SentRowHolds(rows: seq<Row>, cells: seq<DenseCell>, k: nat)
    requires Ascending(rows) && AllTidy(rows) && ShowsValues(rows, cells) && k < |rows|
    ensures HasValue(cells, rows[k].index)
  {
    hide LastValue;
    var row := rows[k];
    var col := |row.values| - 1;
    ShownOnly(rows, k, col);
    assert Shown(rows, row.index, col) == AsCell(LastValue(cells, row.index, col));
    var i := LastValueArrival(cells, row.index, col);
  }

  lemma HeldRowIsSent(rows: seq<Row>, cells: seq<DenseCell>, i: nat)
    requires Ascending(rows) && ShowsValues(rows, cells) && i < |cells| && !cells[i].value.Empty?
    ensures exists k :: 0 <= k < |rows| && rows[k].index == cells[i].row
  {
    hide LastValue;
    ValueArrived(cells, i);
    assert Shown(rows, cells[i].row, cells[i].col) == AsCell(LastValue(cells, cells[i].row, cells[i].col));
    var k := ShownSome(rows, cells[i].row, cells[i].col);
  }

  lemma SameSpan(rows: seq<Row>, cells: seq<DenseCell>)
    requires Ascending(rows) && AllTidy(rows) && ShowsValues(rows, cells)
    ensures SameRowsHold(rows, cells)
  {
    hide ShowsValues, AllTidy;
    if rows != [] {
      SentRowHolds(rows, cells, 0);
      SentRowHolds(rows, cells, |rows| - 1);
    }
    forall row: nat | HasValue(cells, row)
      ensures rows != [] && rows[0].index <= row <= rows[|rows| - 1].index
    {
      var i :| 0 <= i < |cells| && cells[i].row == row && !cells[i].value.Empty?;
      HeldRowIsSent(rows, cells, i);
      var k :| 0 <= k < |rows| && rows[k].index == row;
    }
  }

  /** Both forms have a row for each index from the first populated row to the
      last. */
  lemma SameIndexes(expanded: seq<DenseRow>, rows: seq<Row>, cells: seq<DenseCell>, dense: seq<DenseRow>)
    requires Spans(expanded, rows) && SameRowsHold(rows, cells) && DenseGrid(cells, dense)
    ensures |expanded| == |dense|
    ensures forall i :: 0 <= i < |dense| ==> expanded[i].index == dense[i].index
  {
    hide HasValue, RowsShow;
    if dense != [] {
      assert HasValue(cells, dense[0].index) && HasValue(cells, dense[|dense| - 1].index);
      assert dense[|dense| - 1].index == dense[0].index + |dense| - 1;
      assert expanded[|expanded| - 1].index == expanded[0].index + |expanded| - 1;
    }
  }

  /** Where a position stands in a dense grid. */
  lemma HeldRowIsDense(cells: seq<DenseCell>, dense: seq<DenseRow>, row: nat) returns (i: nat)
    requires DenseGrid(cells, dense) && HasValue(cells, row)
    ensures i < |dense| && dense[i].index == row
  {
    hide HasValue, RowsShow;
    assert dense[|dense| - 1].index == dense[0].index + |dense| - 1;
    i := row - dense[0].index;
  }

  lemma SameUnlessBlankWins(arrivals: seq<Arrival>, rows: seq<Row>, expanded: seq<DenseRow>, dense: seq<DenseRow>)
    requires var cells := DenseCells(arrivals);
             && ShowsValues(rows, cells) && Shows(expanded, rows) && DenseGrid(cells, dense)
    requires |expanded| == |dense| && forall i :: 0 <= i < |dense| ==> expanded[i].index == dense[i].index
    requires forall i, j :: !BlankWins(arrivals, i, j)
    ensures SameSheet(expanded, dense)
  {
    hide LastAt, LastValue, BlankWins, ValueIn;
    var cells := DenseCells(arrivals);
    forall i, col: nat | 0 <= i < |dense|
      ensures ValueIn(expanded[i].values, col) == ValueIn(dense[i].values, col)
    {
      var row := dense[i].index;
      AgreeUnlessBlankWins(cells, row, col);
      if LastAt(cells, row, col).Empty? && LastValue(cells, row, col).Some? {
        var a, b := BlankWon(arrivals, row, col);
        assert false;
      }
      assert Shown(rows, row, col) == AsCell(LastValue(cells, row, col));
    }
  }

  lemma DifferIfBlankWins(arrivals: seq<Arrival>, rows: seq<Row>, expanded: seq<DenseRow>, dense: seq<DenseRow>,
                          i: nat, j: nat)
    requires var cells := DenseCells(arrivals);
             && ShowsValues(rows, cells) && Shows(expanded, rows) && DenseGrid(cells, dense)
    requires BlankWins(arrivals, i, j)
    ensures !SameSheet(expanded, dense)
  {
    hide LastAt, LastValue;
    var cells := DenseCells(arrivals);
    var row, col := cells[j].row, cells[j].col;
    LastWord(cells, j);
    ValueArrived(cells, i);
    var k := HeldRowIsDense(cells, dense, row);
    assert Shown(rows, row, col) == AsCell(LastValue(cells, row, col));
    var v := LastValueArrival(cells, row, col);
    assert ValueIn(dense[k].values, col).Empty?;
  }

  /** On row-sorted cells the incremental stream always completes, and its
      events stand for exactly the rows of the row-by-row walk: unless a blank
      arrives last where a value had been, and then they differ. */
  lemma {:induction false} GapFormRefinesRows(s: Setup, arrivals: seq<Arrival>, dense: seq<DenseRow>)
    requires PlainSetup(s) && Bare(arrivals) && SortedArrivals(arrivals)
    requires DenseGrid(DenseCells(arrivals), dense)
    ensures Stream(s, arrivals, false).status.Completed?
    ensures SameSheet(Expand(Items(Stream(s, arrivals, false).events)), dense) <==>
            forall i, j :: !BlankWins(arrivals, i, j)
  {
    hide DenseGrid, Spans, Shows, AllTidy, Ascending, ShowsValues, SameRowsHold, BlankWins, SameSheet, RowGrouped,
      Cells, Itemize, Expand, Stream;
    SortedCompletes(s, arrivals);
    SortedCells(s, arrivals);
    GroupedRun(s, arrivals);
    GapsAreExact(s, arrivals, false);
    var events := Stream(s, arrivals, false).events;
    var rows := Sent(events);
    StreamShowsValues(s, arrivals, rows);
    ExpandedRows(rows);
    var expanded := Expand(Items(events));
    SameSpan(rows, DenseCells(arrivals));
    SameIndexes(expanded, rows, DenseCells(arrivals), dense);
    if i, j :| BlankWins(arrivals, i, j) {
      DifferIfBlankWins(arrivals, rows, expanded, dense, i, j);
    } else {
      SameUnlessBlankWins(arrivals, rows, expanded, dense);
    }
  }

  lemma StreamShowsValues(s: Setup, arrivals: seq<Arrival>, rows: seq<Row>)
    requires PlainSetup(s) && Bare(arrivals)
    requires forall row: nat, col: nat :: Shown(rows, row, col) == Latest(Cells(s, arrivals), row, col)
    ensures ShowsValues(rows, DenseCells(arrivals))
  {
    forall row: nat, col: nat
      ensures Shown(rows, row, col) == AsCell(LastValue(DenseCells(arrivals), row, col))
    {
      StreamKeepsValues(s, arrivals, row, col);
    }
  }
}
