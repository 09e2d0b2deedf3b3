/** The buffered path sends exactly the populated rows of its range, and the
    range of a sheet holds the sheet (`src/service.rs`, `emit_range`). */
module RangeTheorems {
  import opened Sequences
  import opened Contract
  import opened StringTables
  import opened Batching
  import opened BatchingFacts
  import opened BatcherInvariant
  import opened Walking
  import opened Ranges

  // ---- rows pushed in ascending order -------------------------------------------------

  lemma {:induction false} SortAscending(rows: seq<Row>, tie: (Row, Row) -> bool)
    requires Ascending(rows)
    ensures SortRows(rows, tie) == rows
  {
    if rows == [] {
    } else {
      var prefix, last := rows[..|rows| - 1], rows[|rows| - 1];
      SortAscending(prefix, tie);
      assert rows == prefix + [last];
    }
  }

  /** `pushed` so far, in order: the rows sent and then the rows queued. */
  ghost predicate InOrder(start: Option<nat>, b: Batcher, events: seq<Event>, pushed: seq<Row>) {
    && ValidTable(b.table)
    && Sent(events) + b.rows == pushed
    && b.nextExpected == NextAfter(Sent(events), start)
    && Items(events) == Itemize(Sent(events), start)
  }

  lemma AscendingParts(a: seq<Row>, b: seq<Row>)
    requires Ascending(a + b)
    ensures Ascending(a) && Ascending(b)
  {
    assert forall k :: 0 <= k < |a| ==> a[k] == (a + b)[k];
    assert forall k :: 0 <= k < |b| ==> b[k] == (a + b)[|a| + k];
  }

  lemma NonEmptyFlushInOrder(cfg: Config, start: Option<nat>, b: Batcher, events: seq<Event>, pushed: seq<Row>)
    requires InOrder(start, b, events, pushed) && Ascending(pushed) && b.rows != []
    ensures InOrder(start, Flush(cfg, b).0, events + Flush(cfg, b).1, pushed)
    ensures Flush(cfg, b).0.rows == []
  {
    hide FlatMap, Itemize, SortRows, Ascending, FlushFrom, Chunks;
    AscendingParts(Sent(events), b.rows);
    SortAscending(b.rows, cfg.tie);
    FlushedEvents(cfg, b, events);
    ItemizeAppend(Sent(events), b.rows, start);
    assert Sent(events + Flush(cfg, b).1) == pushed;
    assert pushed + [] == pushed;
  }

  lemma FlushInOrder(cfg: Config, start: Option<nat>, b: Batcher, events: seq<Event>, pushed: seq<Row>)
    requires InOrder(start, b, events, pushed) && Ascending(pushed)
    ensures InOrder(start, Flush(cfg, b).0, events + Flush(cfg, b).1, pushed)
    ensures Flush(cfg, b).0.rows == []
  {
    if b.rows == [] {
      hide InOrder;
      assert events + [] == events;
    } else {
      NonEmptyFlushInOrder(cfg, start, b, events, pushed);
    }
  }

  lemma EnqueueInOrder(rows: seq<Row>, row: Row)
    requires Ascending(rows + [row])
    ensures Enqueue(rows, row) == rows + [row]
  {
    if rows != [] {
      assert (rows + [row])[|rows| - 1].index < (rows + [row])[|rows|].index;
    }
  }

  lemma PushInOrder(cfg: Config, start: Option<nat>, b: Batcher, events: seq<Event>, pushed: seq<Row>, row: Row)
    requires InOrder(start, b, events, pushed) && Ascending(pushed + [row])
    ensures InOrder(start, Push(cfg, b, row).0, events + Push(cfg, b, row).1, pushed + [row])
  {
    hide FlatMap, Itemize, Flush, Ascending, ApproxBytes;
    assert Sent(events) + (b.rows + [row]) == pushed + [row];
    AscendingParts(Sent(events), b.rows + [row]);
    EnqueueInOrder(b.rows, row);
    hide Enqueue;
    FlushInOrder(cfg, start, Queued(b, row), events, pushed + [row]);
    assert events + [] == events;
  }

  lemma {:induction false} PushAllInOrder(cfg: Config, start: Option<nat>, b: Batcher, events: seq<Event>,
                                          rows: seq<Row>)
    requires ValidTable(b.table) && InOrder(start, b, events, []) && Ascending(rows)
    ensures InOrder(start, PushAll(cfg, b, rows).0, events + PushAll(cfg, b, rows).1, rows)
  {
    hide InOrder, Push, Ascending;
    if rows == [] {
      assert events + [] == events;
    } else {
      var prefix, last := rows[..|rows| - 1], rows[|rows| - 1];
      assert prefix + [last] == rows;
      AscendingParts(prefix, [last]);
      PushAllInOrder(cfg, start, b, events, prefix);
      var (b1, ev1) := PushAll(cfg, b, prefix);
      PushInOrder(cfg, start, b1, events + ev1, prefix, last);
      assert (events + ev1) + Push(cfg, b1, last).1 == events + PushAll(cfg, b, rows).1;
    }
  }

  lemma RangeRowsAscend(startRow: nat, pad: nat, rows: seq<seq<Value>>)
    requires startRow + |rows| <= 0xFFFF_FFFF
    ensures Ascending(RangeRows(startRow, pad, rows))
    ensures forall k :: 0 <= k < |RangeRows(startRow, pad, rows)| ==>
              startRow <= RangeRows(startRow, pad, rows)[k].index < startRow + |rows|
  {
  }

  /** The buffered path sends exactly the populated rows of the range, each at
      its absolute row and anchored at column A, and announces exactly the
      blank rows between the range's start and them. */
  lemma {:induction false} RangeStreamSays(cfg: Config, table: Option<Table>, range: Range, maxDenseCells: nat)
    requires ValidRange(range) && ValidTable(table) && range.Range? && RangeWithin(range, maxDenseCells)
    ensures var events := RangeStream(cfg, table, range, maxDenseCells);
            var rows := RangeRows(range.startRow, range.startCol, range.rows);
            Sent(events) == rows && Items(events) == Itemize(rows, Some(range.startRow))
  {
    var start := Some(range.startRow);
    var rows := RangeRows(range.startRow, range.startCol, range.rows);
    RangeRowsAscend(range.startRow, range.startCol, range.rows);
    SaysOne(Started);
    PushAllInOrder(cfg, start, NewBatcher(start, table), [Started], rows);
    var (b, ev) := PushAll(cfg, NewBatcher(start, table), rows);
    hide FlatMap, Itemize, Flush, PushAll;
    FlushInOrder(cfg, start, b, [Started] + ev, rows);
    assert Sent([Started] + ev + Flush(cfg, b).1) + [] == rows;
  }

  // ---- a range and its sheet ------------------------------------------------------------

  lemma PaddedShows(pad: nat, values: seq<Value>, col: nat)
    ensures CellAt(PaddedRow(pad, values), col) ==
            if pad <= col < pad + |values| && !values[col - pad].Empty?
            then Some(CellData(values[col - pad], None, None)) else None
  {
  }

  lemma RangeRowsMore(startRow: nat, pad: nat, rows: seq<seq<Value>>)
    requires rows != [] && startRow + |rows| <= 0xFFFF_FFFF
    ensures var n := |rows| - 1;
            RangeRows(startRow, pad, rows) ==
            RangeRows(startRow, pad, rows[..n]) +
            if AllEmpty(rows[n]) then [] else [Row(startRow + n, PaddedRow(pad, rows[n]))]
  {
  }

  lemma ShownMore(rows: seq<Row>, last: Row, row: nat, col: nat)
    ensures Shown(rows + [last], row, col) ==
            if last.index == row && CellAt(last.values, col).Some? then CellAt(last.values, col)
            else Shown(rows, row, col)
  {
    assert (rows + [last])[..|rows|] == rows;
  }

  lemma EmptyShowsNothing(pad: nat, values: seq<Value>, col: nat)
    requires AllEmpty(values)
    ensures CellAt(PaddedRow(pad, values), col) == None
  {
    PaddedShows(pad, values, col);
  }

  /** What the rows of a range show: the range. */
  lemma {:induction false} RangeShows(startRow: nat, pad: nat, rows: seq<seq<Value>>, row: nat, col: nat)
    requires startRow + |rows| <= 0xFFFF_FFFF
    ensures Shown(RangeRows(startRow, pad, rows), row, col) ==
            if startRow <= row < startRow + |rows| then CellAt(PaddedRow(pad, rows[row - startRow]), col) else None
  {
    if rows == [] {
    } else {
      hide RangeRows, PaddedRow, CellAt, Shown, AllEmpty, Ascending;
      var n := |rows| - 1;
      var before := RangeRows(startRow, pad, rows[..n]);
      RangeShows(startRow, pad, rows[..n], row, col);
      RangeRowsAscend(startRow, pad, rows[..n]);
      RangeRowsMore(startRow, pad, rows);
      if AllEmpty(rows[n]) {
        EmptyShowsNothing(pad, rows[n], col);
        assert before + [] == before;
      } else {
        ShownMore(before, Row(startRow + n, PaddedRow(pad, rows[n])), row, col);
      }
    }
  }

  /** A row without its trailing empty cells. */
  function Trimmed(values: seq<CellData>): seq<CellData> {
    if values == [] || Carries(values[|values| - 1]) then values else Trimmed(values[..|values| - 1])
  }

  function TrimmedRow(row: Row): Row {
    Row(row.index, Trimmed(row.values))
  }

  function Mapped(f: Row -> Row, rows: seq<Row>): (r: seq<Row>)
    ensures |r| == |rows|
    ensures forall k :: 0 <= k < |rows| ==> r[k] == f(rows[k])
  {
    seq(|rows|, k requires 0 <= k < |rows| => f(rows[k]))
  }

  function MappedItem(f: Row -> Row, item: Item): Item {
    if item.RowItem? then RowItem(f(item.row)) else item
  }

  function MappedItems(f: Row -> Row, items: seq<Item>): (r: seq<Item>)
    ensures |r| == |items|
    ensures forall k :: 0 <= k < |items| ==> r[k] == MappedItem(f, items[k])
  {
    seq(|items|, k requires 0 <= k < |items| => MappedItem(f, items[k]))
  }

  ghost predicate KeepsIndex(f: Row -> Row) {
    forall row :: f(row).index == row.index
  }

  lemma {:induction false} MappedItemize(f: Row -> Row, rows: seq<Row>, start: Option<nat>)
    requires KeepsIndex(f)
    ensures MappedItems(f, Itemize(rows, start)) == Itemize(Mapped(f, rows), start)
  {
    if rows == [] {
    } else {
      var n := |rows| - 1;
      var prefix, m := rows[..n], Mapped(f, rows);
      assert m[..n] == Mapped(f, prefix);
      hide MappedItems, Mapped, NextAfter, GapBefore;
      MappedItemize(f, prefix, start);
      MappedGap(f, Itemize(prefix, start), rows[n], NextAfter(prefix, start));
    }
  }

  lemma MappedGap(f: Row -> Row, before: seq<Item>, row: Row, next: Option<nat>)
    ensures MappedItems(f, before + GapBefore(row.index, next) + [RowItem(row)]) ==
            MappedItems(f, before) + GapBefore(row.index, next) + [RowItem(f(row))]
  {
  }

  lemma TrimmedShows(values: seq<CellData>, col: nat)
    ensures CellAt(Trimmed(values), col) == CellAt(values, col)
  {
  }

  function MappedOption(g: CellData -> CellData, data: Option<CellData>): Option<CellData> {
    if data.None? then None else Some(g(data.value))
  }

  /** `to` shows, cell by cell, what `from` shows, through `g`. */
  ghost predicate RowMaps(g: CellData -> CellData, from: Row, to: Row) {
    forall c: nat :: CellAt(to.values, c) == MappedOption(g, CellAt(from.values, c))
  }

  lemma {:induction false} MappedShows(f: Row -> Row, g: CellData -> CellData, rows: seq<Row>, row: nat, col: nat)
    requires KeepsIndex(f)
    requires forall k :: 0 <= k < |rows| ==> RowMaps(g, rows[k], f(rows[k]))
    ensures Shown(Mapped(f, rows), row, col) == MappedOption(g, Shown(rows, row, col))
  {
    if rows == [] {
    } else {
      var n := |rows| - 1;
      var m := Mapped(f, rows);
      assert m[..n] == Mapped(f, rows[..n]);
      assert m[n] == f(rows[n]);
      assert RowMaps(g, rows[n], f(rows[n]));
      MappedShows(f, g, rows[..n], row, col);
    }
  }

  // ---- the rows of a range, trimmed -----------------------------------------------------

  lemma TrimmedIsTidy(values: seq<CellData>, c: nat)
    requires c < |values| && Carries(values[c])
    requires forall c :: 0 <= c < |values| && !Carries(values[c]) ==> values[c] == EMPTY_CELL
    ensures Tidy(Trimmed(values))
  {
    if !Carries(values[|values| - 1]) {
      TrimmedIsTidy(values[..|values| - 1], c);
    }
  }

  lemma PaddedTrims(index: RowIndex, pad: nat, values: seq<Value>)
    requires !AllEmpty(values)
    ensures Tidy(Trimmed(PaddedRow(pad, values)))
  {
    var j :| 0 <= j < |values| && !values[j].Empty?;
    TrimmedIsTidy(PaddedRow(pad, values), pad + j);
  }

  lemma {:induction false} RangeRowsTrim(startRow: nat, pad: nat, rows: seq<seq<Value>>)
    requires startRow + |rows| <= 0xFFFF_FFFF
    ensures AllTidy(Mapped(TrimmedRow, RangeRows(startRow, pad, rows)))
  {
    if rows == [] {
    } else {
      var n := |rows| - 1;
      RangeRowsTrim(startRow, pad, rows[..n]);
      var before, all := RangeRows(startRow, pad, rows[..n]), RangeRows(startRow, pad, rows);
      if !AllEmpty(rows[n]) {
        PaddedTrims(startRow + n, pad, rows[n]);
        assert forall k :: 0 <= k < |before| ==> Mapped(TrimmedRow, all)[k] == Mapped(TrimmedRow, before)[k];
      } else {
        assert before + [] == before;
      }
    }
  }

  // ---- the range of a sheet ---------------------------------------------------------------

  /** What a `Data` value keeps of a streamed cell: no style, and a shared
      string in place. */
  function PlainData(data: CellData): CellData {
    CellData(DataOf(data.value), None, None)
  }

  ghost predicate HaveValues(cells: seq<Cell>) {
    forall k :: 0 <= k < |cells| ==> !cells[k].data.value.Empty?
  }

  lemma LatestSome(cells: seq<Cell>, row: nat, col: nat) returns (k: nat)
    requires Latest(cells, row, col).Some?
    ensures k < |cells| && cells[k].row == row && cells[k].col == col && Some(cells[k].data) == Latest(cells, row, col)
  {
    k := |cells| - 1;
    if !(cells[k].row == row && cells[k].col == col) {
      k := LatestSome(cells[..k], row, col);
    }
  }

  /** A populated position is inside the range's box. */
  lemma SparseCovers(header: Option<nat>, cells: seq<Cell>, row: nat, col: nat)
    requires cells != [] && FromHeader(header, cells) && Latest(cells, row, col).Some?
    ensures var range := FromSparse(header, cells);
            && range.startRow <= row < range.startRow + |range.rows|
            && range.startCol <= col < range.startCol + range.width
  {
    var k := LatestSome(cells, row, col);
    hide Latest, ValueAt, BoxRow;
  }

  /** The value of a range at an absolute position inside its box. */
  lemma SparseValue(header: Option<nat>, cells: seq<Cell>, row: nat, col: nat)
    requires cells != [] && FromHeader(header, cells)
    requires var range := FromSparse(header, cells);
             && range.startRow <= row < range.startRow + |range.rows|
             && range.startCol <= col < range.startCol + range.width
    ensures var range := FromSparse(header, cells);
            range.rows[row - range.startRow][col - range.startCol] == ValueAt(cells, row, col)
  {
    hide Latest, ValueAt, FirstRow, LastRow, FirstCol, LastCol;
    var range := FromSparse(header, cells);
    assert range.rows[row - range.startRow] == BoxRow(cells, row, range.startCol, range.width);
  }

  /** Within the box of a range and no further: every kept cell is inside, and
      the box reaches no row or column beyond the cells but for the header row
      and column A. */
  ghost predicate TightBox(header: Option<nat>, cells: seq<Cell>, range: Range) {
    && range.Range?
    && (forall k :: 0 <= k < |cells| ==>
          && range.startRow <= cells[k].row < range.startRow + |range.rows|
          && range.startCol <= cells[k].col < range.startCol + range.width)
    && (exists k :: 0 <= k < |cells| && cells[k].row == range.startRow + |range.rows| - 1)
    && (exists k :: 0 <= k < |cells| && cells[k].col == range.startCol + range.width - 1)
    && (if header.Some? then range.startRow == header.value && range.startCol == 0
        else
          && (exists k :: 0 <= k < |cells| && cells[k].row == range.startRow)
          && (exists k :: 0 <= k < |cells| && cells[k].col == range.startCol))
  }

  lemma SparseIsTight(header: Option<nat>, cells: seq<Cell>)
    requires cells != [] && FromHeader(header, cells)
    ensures TightBox(header, cells, FromSparse(header, cells))
  {
    hide BoxRow, BoxRows;
  }

  /** `value` is what a range holds where `data` arrived last. */
  predicate Holds(value: Value, data: Option<CellData>) {
    match data
    case None => value == Empty
    case Some(d) => value == if d.value.Shared? then Str(d.value.text) else d.value
  }

  /** What `Range::from_sparse` makes of the kept cells: the smallest box around
      them, or the one from the selected header row and column A, and at each
      position of it the value that arrived there last, a shared string as the
      plain string of its text. */
  lemma {:induction false} SparseIs(header: Option<nat>, cells: seq<Cell>)
    requires cells != [] && FromHeader(header, cells)
    ensures var range := FromSparse(header, cells);
            && TightBox(header, cells, range)
            && forall i: nat, j: nat :: i < |range.rows| && j < range.width ==>
                 |range.rows[i]| == range.width &&
                 Holds(range.rows[i][j], Latest(cells, range.startRow + i, range.startCol + j))
  {
    hide FromSparse, TightBox, FromHeader, Latest;
    SparseIsTight(header, cells);
    var range := FromSparse(header, cells);
    forall i: nat, j: nat | i < |range.rows| && j < range.width
      ensures |range.rows[i]| == range.width
      ensures Holds(range.rows[i][j], Latest(cells, range.startRow + i, range.startCol + j))
    {
      SparseValue(header, cells, range.startRow + i, range.startCol + j);
    }
  }

  lemma SparseData(cells: seq<Cell>, row: nat, col: nat)
    requires HaveValues(cells)
    ensures MappedOption(PlainData, Latest(cells, row, col)) ==
            if ValueAt(cells, row, col).Empty? then None else Some(CellData(ValueAt(cells, row, col), None, None))
    ensures Latest(cells, row, col).None? ==> ValueAt(cells, row, col).Empty?
  {
    if Latest(cells, row, col).Some? {
      var k := LatestSome(cells, row, col);
    }
  }

  lemma {:induction false} SparseShows(header: Option<nat>, cells: seq<Cell>, row: nat, col: nat)
    requires cells != [] && HaveValues(cells)
    requires FromHeader(header, cells)
    ensures var range := FromSparse(header, cells);
            && Shown(RangeRows(range.startRow, range.startCol, range.rows), row, col) ==
               MappedOption(PlainData, Latest(cells, row, col))
  {
    hide FromSparse, RangeRows, Shown, PaddedRow, CellAt, ValueAt;
    SparseData(cells, row, col);
    if Latest(cells, row, col).Some? {
      SparseCovers(header, cells, row, col);
    }
    var range := FromSparse(header, cells);
    RangeShows(range.startRow, range.startCol, range.rows, row, col);
    if range.startRow <= row < range.startRow + |range.rows| {
      PaddedShows(range.startCol, range.rows[row - range.startRow], col);
      if range.startCol <= col < range.startCol + range.width {
        SparseValue(header, cells, row, col);
      }
    }
  }

  lemma TrimmedMaps(row: Row)
    ensures RowMaps(SameData, row, TrimmedRow(row))
  {
    forall c: nat
      ensures CellAt(TrimmedRow(row).values, c) == MappedOption(SameData, CellAt(row.values, c))
    {
      TrimmedShows(row.values, c);
    }
  }

  function SameData(data: CellData): CellData {
    data
  }

  lemma TrimmedRowsShow(rows: seq<Row>, row: nat, col: nat)
    ensures Shown(Mapped(TrimmedRow, rows), row, col) == Shown(rows, row, col)
  {
    forall k | 0 <= k < |rows|
      ensures RowMaps(SameData, rows[k], TrimmedRow(rows[k]))
    {
      TrimmedMaps(rows[k]);
    }
    MappedShows(TrimmedRow, SameData, rows, row, col);
  }

  lemma RangeRowsPlain(header: Option<nat>, cells: seq<Cell>)
    requires cells != [] && HaveValues(cells)
    requires FromHeader(header, cells)
    ensures var range := FromSparse(header, cells);
            && var rows := Mapped(TrimmedRow, RangeRows(range.startRow, range.startCol, range.rows));
            && AllTidy(rows) && Ascending(rows)
            && forall row: nat, col: nat :: Shown(rows, row, col) == MappedOption(PlainData, Latest(cells, row, col))
  {
    var range := FromSparse(header, cells);
    hide FromSparse, RangeRows, Latest, Shown, HaveValues, AllTidy;
    var rows := RangeRows(range.startRow, range.startCol, range.rows);
    RangeRowsTrim(range.startRow, range.startCol, range.rows);
    RangeRowsAscend(range.startRow, range.startCol, range.rows);
    forall row: nat, col: nat
      ensures Shown(Mapped(TrimmedRow, rows), row, col) == MappedOption(PlainData, Latest(cells, row, col))
    {
      TrimmedRowsShow(rows, row, col);
      SparseShows(header, cells, row, col);
    }
  }
}
