/** Collecting a sheet's formulas cell by cell and streaming them one row at a
    time (`src/service.rs`), against the range they stand for. */
module FormulaStreams {
  import opened Sequences
  import opened DenseBudget
  import opened Channels
  import opened Formulas

  // ---- sorting ----

  predicate NotAfter(a: FormulaCell, b: FormulaCell) {
    a.row < b.row || (a.row == b.row && a.col <= b.col)
  }

  predicate Ordered(cells: seq<FormulaCell>) {
    forall i, j :: 0 <= i < j < |cells| ==> NotAfter(cells[i], cells[j])
  }

  /** A stable sort puts a cell after every one it does not precede. */
  function InsertCell(cells: seq<FormulaCell>, cell: FormulaCell): (r: seq<FormulaCell>)
    requires Ordered(cells)
    ensures Ordered(r) && multiset(r) == multiset(cells) + multiset{cell} && |r| == |cells| + 1
    ensures forall row, col :: TextAt(r, row, col) == TextAt(cells + [cell], row, col)
  {
    if cells == [] || NotAfter(cells[|cells| - 1], cell) then
      var r := cells + [cell];
      r
    else
      var n := |cells| - 1;
      assert cells == cells[..n] + [cells[n]];
      var rest := InsertCell(cells[..n], cell);
      assert multiset(rest) == multiset(cells[..n]) + multiset{cell};
      RestBefore(cells, rest, cell);
      Hopping(cells[..n], rest, cells[n], cell);
      assert cells[..n] + [cells[n]] + [cell] == cells + [cell];
      rest + [cells[n]]
  }

  lemma RestBefore(cells: seq<FormulaCell>, rest: seq<FormulaCell>, cell: FormulaCell)
    requires cells != [] && Ordered(cells) && !NotAfter(cells[|cells| - 1], cell)
    requires multiset(rest) == multiset(cells[..|cells| - 1]) + multiset{cell}
    ensures forall i :: 0 <= i < |rest| ==> NotAfter(rest[i], cells[|cells| - 1])
  {
    forall i | 0 <= i < |rest|
      ensures NotAfter(rest[i], cells[|cells| - 1])
    {
      assert rest[i] in multiset(rest);
      assert rest[i] == cell || rest[i] in cells[..|cells| - 1];
    }
  }

  /** Moving a cell back over one at another position changes no text. */
  lemma Hopping(init: seq<FormulaCell>, rest: seq<FormulaCell>, last: FormulaCell, cell: FormulaCell)
    requires !NotAfter(last, cell)
    requires forall row, col :: TextAt(rest, row, col) == TextAt(init + [cell], row, col)
    ensures forall row, col :: TextAt(rest + [last], row, col) == TextAt(init + [last] + [cell], row, col)
  {
    forall row: nat, col: nat
      ensures TextAt(rest + [last], row, col) == TextAt(init + [last] + [cell], row, col)
    {
      assert (rest + [last])[..|rest|] == rest;
      assert (init + [last] + [cell])[..|init| + 1] == init + [last];
      assert (init + [last])[..|init|] == init;
      assert (init + [cell])[..|init|] == init;
    }
  }

  /** The stable sort by position: rows first, then columns. */
  function Sorted(cells: seq<FormulaCell>): (r: seq<FormulaCell>)
    ensures Ordered(r) && multiset(r) == multiset(cells) && |r| == |cells|
  {
    if cells == [] then []
    else
      assert cells == cells[..|cells| - 1] + [cells[|cells| - 1]];
      InsertCell(Sorted(cells[..|cells| - 1]), cells[|cells| - 1])
  }

  /** Sorting by position changes no position's text. */
  lemma {:induction false} SortedTexts(cells: seq<FormulaCell>, row: nat, col: nat)
    ensures TextAt(Sorted(cells), row, col) == TextAt(cells, row, col)
  {
    if cells == [] {
    } else {
      var n := |cells| - 1;
      SortedTexts(cells[..n], row, col);
      var s := Sorted(cells[..n]);
      assert (s + [cells[n]])[..|s|] == s;
      assert TextAt(InsertCell(s, cells[n]), row, col) == TextAt(s + [cells[n]], row, col);
    }
  }

  /** There is one smallest box around a collection of cells. */
  lemma SameBox(cells: seq<FormulaCell>, others: seq<FormulaCell>)
    requires cells != [] && others != [] && multiset(cells) == multiset(others)
    ensures BoxOf(cells) == BoxOf(others)
  {
    hide BoxOf;
    Encloses(cells, others);
    Encloses(others, cells);
  }

  lemma Encloses(cells: seq<FormulaCell>, others: seq<FormulaCell>)
    requires cells != [] && others != [] && multiset(cells) == multiset(others)
    ensures BoxOf(cells).firstRow <= BoxOf(others).firstRow && BoxOf(others).lastRow <= BoxOf(cells).lastRow
    ensures BoxOf(cells).firstCol <= BoxOf(others).firstCol && BoxOf(others).lastCol <= BoxOf(cells).lastCol
  {
    hide BoxOf;
    forall k | 0 <= k < |others|
      ensures Inside(BoxOf(cells), others[k])
    {
      assert others[k] in multiset(others);
      assert others[k] in cells;
    }
  }

  /** Outside its box a collection holds nothing. */
  lemma {:induction false} NothingOutside(cells: seq<FormulaCell>, row: nat, col: nat)
    requires forall k :: 0 <= k < |cells| ==> cells[k].row != row || cells[k].col != col
    ensures TextAt(cells, row, col) == []
  {
    if cells == [] {
    } else {
      NothingOutside(cells[..|cells| - 1], row, col);
    }
  }

  /** Cells of later rows do not show in this one. */
  lemma {:induction false} LaterRowsDoNotShow(cells: seq<FormulaCell>, at: nat, row: nat, col: nat)
    requires at <= |cells|
    requires forall k :: at <= k < |cells| ==> cells[k].row != row
    ensures TextAt(cells, row, col) == TextAt(cells[..at], row, col)
  {
    if at < |cells| {
      var n := |cells| - 1;
      assert cells[..n][..at] == cells[..at];
      LaterRowsDoNotShow(cells[..n], at, row, col);
    } else {
      assert cells[..at] == cells;
    }
  }

  // ---- streaming ----

  /** The first and last columns of some cells, as two passes find them. */
  method ColumnsOf(cells: seq<FormulaCell>) returns (first: U32, last: U32)
    requires cells != []
    ensures first == BoxOf(cells).firstCol && last == BoxOf(cells).lastCol
  {
    first, last := cells[0].col, cells[0].col;
    for k := 1 to |cells|
      invariant forall j :: 0 <= j < k ==> first <= cells[j].col <= last
      invariant exists j :: 0 <= j < k && cells[j].col == first
      invariant exists j :: 0 <= j < k && cells[j].col == last
    {
      first, last := Min(first, cells[k].col), Max(last, cells[k].col);
    }
    hide BoxOf;
  }

  /** One dense row out of the sorted cells: those from `at` on that are in
      `row`. The cells from `next` on are in later rows. */
  method BuildRow(sorted: seq<FormulaCell>, at: nat, row: nat, width: nat)
    returns (formulas: seq<Bytes>, next: nat)
    requires Ordered(sorted) && at <= |sorted|
    requires forall k :: 0 <= k < |sorted| ==> sorted[k].col < width
    requires forall k :: 0 <= k < at ==> sorted[k].row < row
    requires forall k :: at <= k < |sorted| ==> row <= sorted[k].row
    ensures |formulas| == width
    ensures forall col :: 0 <= col < width ==> formulas[col] == TextAt(sorted, row, col)
    ensures at <= next <= |sorted|
    ensures forall k :: 0 <= k < next ==> sorted[k].row <= row
    ensures forall k :: next <= k < |sorted| ==> row < sorted[k].row
  {
    formulas, next := Blanks(width), at;
    forall col: nat | col < width
      ensures TextAt(sorted[..at], row, col) == []
    {
      NothingOutside(sorted[..at], row, col);
    }
    while next < |sorted| && sorted[next].row == row
      invariant at <= next <= |sorted| && |formulas| == width
      invariant forall k :: at <= k < next ==> sorted[k].row == row
      invariant forall col :: 0 <= col < width ==> formulas[col] == TextAt(sorted[..next], row, col)
    {
      assert sorted[..next + 1][..next] == sorted[..next];
      formulas := formulas[sorted[next].col := sorted[next].text];
      next := next + 1;
    }
    forall k | next <= k < |sorted|
      ensures row < sorted[k].row
    {
      assert k == next || NotAfter(sorted[next], sorted[k]);
    }
    forall col: nat | col < width
      ensures TextAt(sorted, row, col) == TextAt(sorted[..next], row, col)
    {
      LaterRowsDoNotShow(sorted, next, row, col);
    }
  }

  /** A dense row, built from column A, is the range's row padded to there. */
  lemma RowIsPadded(cells: seq<FormulaCell>, i: nat, formulas: seq<Bytes>)
    requires cells != []
    requires var box := BoxOf(cells);
             i < Height(box) && |formulas| == box.lastCol + 1
             && forall col :: 0 <= col <= box.lastCol ==> formulas[col] == TextAt(cells, box.firstRow + i, col)
    ensures FromSparse(cells).Texts? && i < |FromSparse(cells).rows|
    ensures formulas == PaddedTexts(BoxOf(cells).firstCol, FromSparse(cells).rows[i])
  {
    hide BoxOf;
    var box := BoxOf(cells);
    var padded := PaddedTexts(box.firstCol, FromSparse(cells).rows[i]);
    forall col: nat | col <= box.lastCol
      ensures padded[col] == formulas[col]
    {
      if col < box.firstCol {
        assert forall k :: 0 <= k < |cells| ==> Inside(box, cells[k]);
        NothingOutside(cells, box.firstRow + i, col);
      }
    }
  }

  /** `all` is the stream of the cells' range, header and rows, and `sorted`
      holds what the rows do. */
  ghost predicate Streams(cells: seq<FormulaCell>, sorted: seq<FormulaCell>, box: Box, all: seq<FormulaEvent>) {
    && cells != [] && box == BoxOf(cells)
    && Ordered(sorted)
    && (forall row: nat, col: nat :: TextAt(sorted, row, col) == TextAt(cells, row, col))
    && (forall k :: 0 <= k < |sorted| ==> Inside(box, sorted[k]))
    && |all| == 1 + Height(box) && all[0] == FormulaStarted(Some(box), TotalCells(box))
    && all[1..] == RowEvents(box.firstRow, box.firstCol, FromSparse(cells).rows)
  }

  /** The dense rows from the first row to the last, one event each, after
      the header. */
  method SendRows(ghost cells: seq<FormulaCell>, sorted: seq<FormulaCell>, box: Box, ghost all: seq<FormulaEvent>,
                  tx: Channel<FormulaEvent>)
    requires Streams(cells, sorted, box, all)
    requires tx.Valid() && tx.sent == all[..1]
    modifies tx
    ensures tx.Valid() && tx.sent == Seen(all, tx.patience)
  {
    hide BoxOf, Seen, TextAt, FromSparse;
    var firstRow, lastRow, width := box.firstRow, box.lastRow, box.lastCol as int + 1;
    var at, row := 0, firstRow;
    while row <= lastRow
      invariant firstRow <= row <= lastRow + 1 && at <= |sorted|
      invariant forall k :: 0 <= k < at ==> sorted[k].row < row
      invariant forall k :: at <= k < |sorted| ==> row <= sorted[k].row
      invariant tx.Valid() && tx.sent == all[..1 + row - firstRow]
    {
      var formulas;
      formulas, at := BuildRow(sorted, at, row, width);
      RowIsPadded(cells, row - firstRow, formulas);
      assert all[1 + row - firstRow] == all[1..][row - firstRow] == FormulaRow(row, formulas);
      var ok := tx.Send(FormulaRow(row, formulas));
      Sending(all, 1 + row - firstRow, tx.patience);
      if !ok {
        return;
      }
      row := row + 1;
    }
    assert all[..|all|] == all;
    WholeSeen(all, tx.patience);
  }

  /** How a sheet's formulas stand once sorted. */
  lemma SortedBox(cells: seq<FormulaCell>)
    ensures var sorted := Sorted(cells);
            && |sorted| == |cells|
            && (cells != [] ==>
                  && BoxOf(sorted) == BoxOf(cells)
                  && BoxOf(cells).firstRow == sorted[0].row && BoxOf(cells).lastRow == sorted[|sorted| - 1].row)
  {
    hide BoxOf, Sorted, TextAt;
    var sorted := Sorted(cells);
    if cells != [] {
      SameBox(sorted, cells);
      assert forall k :: 0 <= k < |sorted| ==> sorted[0].row <= sorted[k].row <= sorted[|sorted| - 1].row;
    }
  }

  /** A range within budget, as its sorted cells stream it. */
  lemma StreamStarts(cells: seq<FormulaCell>, max: nat)
    requires cells != [] && BoxWithin(BoxOf(cells), max)
    ensures var all := DenseStream(FromSparse(cells), max);
            && Streams(cells, Sorted(cells), BoxOf(cells), all)
            && |all| > 0 && all[0] == FormulaStarted(Some(BoxOf(cells)), TotalCells(BoxOf(cells)))
  {
    hide BoxOf, Sorted, TextAt, BoxWithin;
    var sorted := Sorted(cells);
    forall row: nat, col: nat
      ensures TextAt(sorted, row, col) == TextAt(cells, row, col)
    {
      SortedTexts(cells, row, col);
    }
    forall k | 0 <= k < |sorted|
      ensures Inside(BoxOf(cells), sorted[k])
    {
      assert sorted[k] in multiset(cells);
      assert sorted[k] in cells;
    }
  }

  /** The budget check on the box, and then the stream. */
  method EmitBox(ghost cells: seq<FormulaCell>, sorted: seq<FormulaCell>, box: Box, maxDenseCells: nat,
                 tx: Channel<FormulaEvent>)
    requires cells != [] && sorted == Sorted(cells) && box == BoxOf(cells)
    requires tx.Valid() && tx.sent == []
    modifies tx
    ensures tx.Valid() && tx.sent == Seen(DenseStream(FromSparse(cells), maxDenseCells), tx.patience)
  {
    ghost var all := DenseStream(FromSparse(cells), maxDenseCells);
    if !BoxWithin(box, maxDenseCells) {
      var ok := tx.Send(FormulaRefused);
      assert [] + [FormulaRefused] == all;
      return;
    }
    StreamStarts(cells, maxDenseCells);
    hide BoxOf, Sorted, Seen, TextAt, FromSparse, DenseStream, BoxWithin, Streams;
    var header := FormulaStarted(Some(box), TotalCells(box));
    var ok := tx.Send(header);
    Sending(all, 0, tx.patience);
    assert [] + [header] == all[..1];
    if !ok {
      return;
    }
    SendRows(cells, sorted, box, all, tx);
  }

  /** What a client is to be sent for some formulas: no extent when there are
      none, only a refusal when their extent from column A is past the budget,
      and otherwise the extent with its cell count and then each of its rows
      from column A, at each position the formula that came last. */
  ghost predicate IsFormulaStream(cells: seq<FormulaCell>, maxDenseCells: nat, events: seq<FormulaEvent>) {
    if cells == [] then events == [FormulaStarted(None, 0)]
    else
      var box := BoxOf(cells);
      var height, width := box.lastRow - box.firstRow + 1, box.lastCol - box.firstCol + 1;
      if maxDenseCells < 0xFFFF_FFFF_FFFF_FFFF && height * (box.lastCol + 1) > maxDenseCells then
        events == [FormulaRefused]
      else
        && |events| == 1 + height
        && events[0] == FormulaStarted(Some(box), (height * width) % 0x1_0000_0000_0000_0000)
        && forall k :: 0 < k <= height ==> IsFormulaRow(cells, box.firstRow + k - 1, box.lastCol, events[k])
  }

  ghost predicate IsFormulaRow(cells: seq<FormulaCell>, row: nat, lastCol: nat, e: FormulaEvent) {
    && e.FormulaRow? && e.row == row && |e.formulas| == lastCol + 1
    && forall col: nat :: col <= lastCol ==> e.formulas[col] == TextAt(cells, row, col)
  }

  lemma {:induction false} RowIs(cells: seq<FormulaCell>, i: nat)
    requires cells != [] && i < Height(BoxOf(cells))
    ensures FromSparse(cells).Texts? && i < |FromSparse(cells).rows|
    ensures var box := BoxOf(cells);
            IsFormulaRow(cells, box.firstRow + i, box.lastCol,
                         FormulaRow(box.firstRow + i, PaddedTexts(box.firstCol, FromSparse(cells).rows[i])))
  {
    hide BoxOf;
    var box := BoxOf(cells);
    var padded := PaddedTexts(box.firstCol, FromSparse(cells).rows[i]);
    forall col: nat | col <= box.lastCol
      ensures padded[col] == TextAt(cells, box.firstRow + i, col)
    {
      if col < box.firstCol {
        assert forall k :: 0 <= k < |cells| ==> Inside(box, cells[k]);
        NothingOutside(cells, box.firstRow + i, col);
      }
    }
  }

  lemma {:induction false} FormulaStreamIs(cells: seq<FormulaCell>, maxDenseCells: nat)
    ensures IsFormulaStream(cells, maxDenseCells, DenseStream(FromSparse(cells), maxDenseCells))
  {
    if cells != [] {
      hide BoxOf, TextAt, TextRows, RowEvents, TotalCells, BoxWithin, IsFormulaStream;
      if BoxWithin(BoxOf(cells), maxDenseCells) {
        StreamIsRows(cells, maxDenseCells);
        RowsAreStream(cells, maxDenseCells, DenseStream(FromSparse(cells), maxDenseCells));
      } else {
        RefusalIsStream(cells, maxDenseCells);
      }
    }
  }

  lemma RowsAreStream(cells: seq<FormulaCell>, max: nat, events: seq<FormulaEvent>)
    requires cells != [] && BoxWithin(BoxOf(cells), max)
    requires |events| == 1 + Height(BoxOf(cells))
    requires events[0] == FormulaStarted(Some(BoxOf(cells)), TotalCells(BoxOf(cells)))
    requires forall k :: 0 < k <= Height(BoxOf(cells)) ==>
                           IsFormulaRow(cells, BoxOf(cells).firstRow + k - 1, BoxOf(cells).lastCol, events[k])
    ensures IsFormulaStream(cells, max, events)
  {
    ExtentIs(BoxOf(cells), max);
    hide BoxOf, TextAt, IsFormulaRow, TotalCells, BoxWithin;
  }

  lemma RefusalIsStream(cells: seq<FormulaCell>, max: nat)
    requires cells != [] && !BoxWithin(BoxOf(cells), max)
    ensures IsFormulaStream(cells, max, [FormulaRefused])
  {
    ExtentIs(BoxOf(cells), max);
    hide BoxOf, TextAt, IsFormulaRow, TotalCells, BoxWithin;
  }

  lemma ExtentIs(box: Box, max: nat)
    requires box.firstRow <= box.lastRow && box.firstCol <= box.lastCol
    ensures var height, width := box.lastRow - box.firstRow + 1, box.lastCol - box.firstCol + 1;
            && (BoxWithin(box, max) <==> !(max < 0xFFFF_FFFF_FFFF_FFFF && height * (box.lastCol + 1) > max))
            && TotalCells(box) == (height * width) % 0x1_0000_0000_0000_0000
  {
    WithinIs(Height(box), box.lastCol + 1, max);
    hide DenseWithin;
  }

  lemma StreamIsRows(cells: seq<FormulaCell>, max: nat)
    requires cells != [] && BoxWithin(BoxOf(cells), max)
    ensures var box, events := BoxOf(cells), DenseStream(FromSparse(cells), max);
            && |events| == 1 + Height(box) && events[0] == FormulaStarted(Some(box), TotalCells(box))
            && forall k :: 0 < k <= Height(box) ==> IsFormulaRow(cells, box.firstRow + k - 1, box.lastCol, events[k])
  {
    hide BoxOf, TextAt, IsFormulaRow, BoxWithin, PaddedTexts, TotalCells;
    var box, events := BoxOf(cells), DenseStream(FromSparse(cells), max);
    forall k | 0 < k <= Height(box)
      ensures IsFormulaRow(cells, box.firstRow + k - 1, box.lastCol, events[k])
    {
      RowIs(cells, k - 1);
    }
  }

  /** `emit_sparse_formulas`: whatever order the cells come in and however
      often one position repeats, the client receives the stream of the range
      calamine would have built from them. */
  method EmitSparseFormulas(cells: seq<FormulaCell>, maxDenseCells: nat, tx: Channel<FormulaEvent>)
    requires tx.Valid() && tx.sent == []
    modifies tx
    ensures tx.Valid() && tx.sent == Seen(DenseStream(FromSparse(cells), maxDenseCells), tx.patience)
    ensures |DenseStream(FromSparse(cells), maxDenseCells)| <= tx.patience ==>
              IsFormulaStream(cells, maxDenseCells, tx.sent)
  {
    FormulaStreamIs(cells, maxDenseCells);
    WholeSeen(DenseStream(FromSparse(cells), maxDenseCells), tx.patience);
    hide IsFormulaStream;
    var sorted := Sorted(cells);
    SortedBox(cells);
    if |sorted| == 0 {
      var ok := tx.Send(FormulaStarted(None, 0));
      assert [] + [FormulaStarted(None, 0)] == DenseStream(FromSparse(cells), maxDenseCells);
      return;
    }
    hide BoxOf, Sorted, Seen, TextAt, FromSparse, DenseStream, BoxWithin;
    var firstRow, lastRow := sorted[0].row, sorted[|sorted| - 1].row;
    var firstCol, lastCol := ColumnsOf(sorted);
    var box := Box(firstRow, firstCol, lastRow, lastCol);
    EmitBox(cells, sorted, box, maxDenseCells, tx);
  }

  /** One more event of a stream, and what a client gone by then has seen. */
  lemma Sending(all: seq<FormulaEvent>, k: nat, patience: nat)
    requires k < |all|
    ensures all[..k] + [all[k]] == all[..k + 1]
    ensures k + 1 <= patience ==> Seen(all[..k + 1], patience) == all[..k + 1]
    ensures k + 1 > patience ==> Seen(all[..k + 1], patience) == Seen(all, patience)
  {
    if k + 1 > patience {
      assert all[..k + 1][..patience] == all[..patience];
    }
  }
}
