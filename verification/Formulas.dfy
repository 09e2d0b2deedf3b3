/** Formula streams (`src/service.rs`): the range calamine would build from a
    sheet's formulas, streamed densely from column A. */
module Formulas {
  import opened Sequences
  import opened DenseBudget

  type U32 = n: int | 0 <= n < 0x1_0000_0000

  datatype FormulaCell = FormulaCell(row: U32, col: U32, text: Bytes)

  /** Two corners, both inside. */
  datatype Box = Box(firstRow: U32, firstCol: U32, lastRow: U32, lastCol: U32)

  datatype FormulaEvent =
    | FormulaStarted(extent: Option<Box>, totalCells: nat)
    | FormulaRow(row: nat, formulas: seq<Bytes>)
    | FormulaRefused
    | FormulaUnread

  // ---- Range::from_sparse ----

  predicate Inside(box: Box, cell: FormulaCell) {
    box.firstRow <= cell.row <= box.lastRow && box.firstCol <= cell.col <= box.lastCol
  }

  /** The smallest box around the cells. */
  function BoxOf(cells: seq<FormulaCell>): (box: Box)
    requires cells != []
    ensures box.firstRow <= box.lastRow && box.firstCol <= box.lastCol
    ensures forall k :: 0 <= k < |cells| ==> Inside(box, cells[k])
    ensures exists k :: 0 <= k < |cells| && cells[k].row == box.firstRow
    ensures exists k :: 0 <= k < |cells| && cells[k].row == box.lastRow
    ensures exists k :: 0 <= k < |cells| && cells[k].col == box.firstCol
    ensures exists k :: 0 <= k < |cells| && cells[k].col == box.lastCol
  {
    var n := |cells| - 1;
    var last := cells[n];
    if n == 0 then Box(last.row, last.col, last.row, last.col)
    else
      var box := BoxOf(cells[..n]);
      Box(Min(box.firstRow, last.row), Min(box.firstCol, last.col),
          Max(box.lastRow, last.row), Max(box.lastCol, last.col))
  }

  /** The formula at a position: whichever came last, or none. */
  function TextAt(cells: seq<FormulaCell>, row: nat, col: nat): Bytes {
    if cells == [] then []
    else
      var last := cells[|cells| - 1];
      if last.row == row && last.col == col then last.text else TextAt(cells[..|cells| - 1], row, col)
  }

  datatype TextRange = NoTexts | Texts(box: Box, rows: seq<seq<Bytes>>)

  /** The box of a collection one cell larger. */
  lemma LargerBox(cells: seq<FormulaCell>, cell: FormulaCell)
    ensures var box := BoxOf(cells + [cell]);
            if cells == [] then box == Box(cell.row, cell.col, cell.row, cell.col)
            else
              var was := BoxOf(cells);
              box == Box(Min(was.firstRow, cell.row), Min(was.firstCol, cell.col),
                         Max(was.lastRow, cell.row), Max(was.lastCol, cell.col))
  {
    assert (cells + [cell])[..|cells|] == cells;
  }

  function Height(box: Box): int {
    box.lastRow - box.firstRow + 1
  }

  function Width(box: Box): int {
    box.lastCol - box.firstCol + 1
  }

  function TextRow(cells: seq<FormulaCell>, row: nat, firstCol: nat, width: nat): (texts: seq<Bytes>)
    ensures |texts| == width
    ensures forall j :: 0 <= j < width ==> texts[j] == TextAt(cells, row, firstCol + j)
  {
    seq(width, j requires 0 <= j => TextAt(cells, row, firstCol + j))
  }

  function TextRows(cells: seq<FormulaCell>, box: Box, height: nat): (rows: seq<seq<Bytes>>)
    requires box.firstCol <= box.lastCol
    ensures |rows| == height
    ensures forall i :: 0 <= i < height ==> rows[i] == TextRow(cells, box.firstRow + i, box.firstCol, Width(box))
  {
    seq(height, i requires 0 <= i => TextRow(cells, box.firstRow + i, box.firstCol, Width(box)))
  }

  function FromSparse(cells: seq<FormulaCell>): TextRange {
    if cells == [] then NoTexts
    else
      var box := BoxOf(cells);
      Texts(box, TextRows(cells, box, Height(box)))
  }

  // ---- streaming a range calamine has built ----

  ghost predicate ValidTexts(range: TextRange) {
    range.Texts? ==>
      && range.box.firstRow <= range.box.lastRow && range.box.firstCol <= range.box.lastCol
      && |range.rows| == Height(range.box)
      && forall i :: 0 <= i < |range.rows| ==> |range.rows[i]| == Width(range.box)
  }

  predicate BoxWithin(box: Box, max: nat)
    requires box.firstRow <= box.lastRow
  {
    DenseWithin(Height(box), box.lastCol + 1, max)
  }

  /** The cell count in the header, a 64-bit product. */
  function TotalCells(box: Box): nat {
    (Height(box) * Width(box)) % (U64_MAX + 1)
  }

  function Blanks(n: nat): (r: seq<Bytes>)
    ensures |r| == n && forall k :: 0 <= k < n ==> r[k] == []
  {
    seq(n, _ => [])
  }

  /** One row, from column A. */
  function PaddedTexts(firstCol: nat, texts: seq<Bytes>): seq<Bytes> {
    Blanks(firstCol) + texts
  }

  function RowEvents(firstRow: nat, firstCol: nat, rows: seq<seq<Bytes>>): (events: seq<FormulaEvent>)
    ensures |events| == |rows|
    ensures forall i :: 0 <= i < |rows| ==> events[i] == FormulaRow(firstRow + i, PaddedTexts(firstCol, rows[i]))
  {
    seq(|rows|, i requires 0 <= i < |rows| => FormulaRow(firstRow + i, PaddedTexts(firstCol, rows[i])))
  }

  /** The events of a formula stream over a range that is already built, as
      for XLS and ODS, to a client that never goes away. */
  function DenseStream(range: TextRange, max: nat): seq<FormulaEvent>
    requires ValidTexts(range)
  {
    match range
    case NoTexts => [FormulaStarted(None, 0)]
    case Texts(box, rows) =>
      if !BoxWithin(box, max) then [FormulaRefused]
      else [FormulaStarted(Some(box), TotalCells(box))] + RowEvents(box.firstRow, box.firstCol, rows)
  }

  /** Under any budget but the largest 64-bit number, a range that passes the
      check announces its exact cell count. */
  lemma {:induction false} TotalIsExact(box: Box, max: nat)
    requires box.firstRow <= box.lastRow && box.firstCol <= box.lastCol
    requires max <= U64_MAX && BoxWithin(box, max)
    ensures max < U64_MAX ==> TotalCells(box) == Height(box) * Width(box)
    ensures TotalCells(box) != Height(box) * Width(box) <==>
            box == Box(0, 0, 0xFFFF_FFFF, 0xFFFF_FFFF)
  {
    var h, w, c := Height(box), Width(box), box.lastCol + 1;
    Products(h, w, h, c);
    Products(h, w, 0x1_0000_0000, w);
    Products(0x1_0000_0000, w, 0x1_0000_0000, 0x1_0000_0000);
    if h < 0x1_0000_0000 {
      Products(h, w, 0xFFFF_FFFF, 0x1_0000_0000);
    } else if w < 0x1_0000_0000 {
      Products(h, w, 0x1_0000_0000, 0xFFFF_FFFF);
    }
  }
}
