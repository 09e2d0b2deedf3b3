/** Dense ranges: what calamine's `Range::from_sparse` builds from a sheet's
    cells, and how `emit_range` streams one (`src/service.rs`). */
module Ranges {
  import opened Sequences
  import opened DenseBudget
  import opened Contract
  import opened StringTables
  import opened Batching
  import opened Walking

  /** A rectangular range at an absolute position. Its values are calamine's
      `Data`: no formula, no style, and strings in place. */
  datatype Range = NoRange | Range(startRow: nat, startCol: nat, width: nat, rows: seq<seq<Value>>)

  ghost predicate ValidRange(range: Range) {
    range.Range? ==>
      && range.startRow + |range.rows| <= 0xFFFF_FFFF
      && forall i :: 0 <= i < |range.rows| ==> |range.rows[i]| == range.width
  }

  // ---- Range::from_sparse -----------------------------------------------------------

  function DataOf(value: Value): Value {
    if value.Shared? then Str(value.text) else value
  }

  function FirstRow(cells: seq<Cell>): (r: nat)
    requires cells != []
    ensures forall k :: 0 <= k < |cells| ==> r <= cells[k].row
    ensures exists k :: 0 <= k < |cells| && cells[k].row == r
  {
    var n := |cells| - 1;
    if n == 0 then cells[0].row else Min(FirstRow(cells[..n]), cells[n].row)
  }

  function LastRow(cells: seq<Cell>): (r: nat)
    requires cells != []
    ensures forall k :: 0 <= k < |cells| ==> cells[k].row <= r
    ensures exists k :: 0 <= k < |cells| && cells[k].row == r
  {
    var n := |cells| - 1;
    if n == 0 then cells[0].row else Max(LastRow(cells[..n]), cells[n].row)
  }

  function FirstCol(cells: seq<Cell>): (c: nat)
    requires cells != []
    ensures forall k :: 0 <= k < |cells| ==> c <= cells[k].col
    ensures exists k :: 0 <= k < |cells| && cells[k].col == c
  {
    var n := |cells| - 1;
    if n == 0 then cells[0].col else Min(FirstCol(cells[..n]), cells[n].col)
  }

  function LastCol(cells: seq<Cell>): (c: nat)
    requires cells != []
    ensures forall k :: 0 <= k < |cells| ==> cells[k].col <= c
    ensures exists k :: 0 <= k < |cells| && cells[k].col == c
  {
    var n := |cells| - 1;
    if n == 0 then cells[0].col else Max(LastCol(cells[..n]), cells[n].col)
  }

  function ValueAt(cells: seq<Cell>, row: nat, col: nat): Value {
    match Latest(cells, row, col)
    case Some(data) => DataOf(data.value)
    case None => Empty
  }

  /** No cell is above the selected header row. */
  predicate FromHeader(header: Option<nat>, cells: seq<Cell>) {
    header.Some? ==> forall k :: 0 <= k < |cells| ==> header.value <= cells[k].row
  }

  function BoxRow(cells: seq<Cell>, row: nat, startCol: nat, width: nat): (values: seq<Value>)
    ensures |values| == width
    ensures forall j :: 0 <= j < width ==> values[j] == ValueAt(cells, row, startCol + j)
  {
    seq(width, j requires 0 <= j => ValueAt(cells, row, startCol + j))
  }

  function BoxRows(cells: seq<Cell>, startRow: nat, height: nat, startCol: nat, width: nat): (rows: seq<seq<Value>>)
    ensures |rows| == height
    ensures forall i :: 0 <= i < height ==> rows[i] == BoxRow(cells, startRow + i, startCol, width)
  {
    seq(height, i requires 0 <= i => BoxRow(cells, startRow + i, startCol, width))
  }

  /** The range over the bounding box of the kept cells; with a header row
      selected it starts at that row and at column A instead, whatever that row
      holds. Each position holds what arrived there last. */
  function FromSparse(header: Option<nat>, cells: seq<Cell>): (range: Range)
    requires FromHeader(header, cells)
    ensures ValidRange(range)
    ensures range.NoRange? <==> cells == []
  {
    if cells == [] then NoRange
    else
      var startRow := if header.Some? then header.value else FirstRow(cells);
      var startCol := if header.Some? then 0 else FirstCol(cells);
      var width := LastCol(cells) + 1 - startCol;
      Range(startRow, startCol, width, BoxRows(cells, startRow, LastRow(cells) + 1 - startRow, startCol, width))
  }

  // ---- emit_range --------------------------------------------------------------------

  predicate RangeWithin(range: Range, max: nat) {
    range.NoRange? || DenseWithin(|range.rows|, range.startCol + range.width, max)
  }

  predicate AllEmpty(values: seq<Value>) {
    forall j :: 0 <= j < |values| ==> values[j].Empty?
  }

  /** `cell_data`, cell by cell, from column A. */
  function PaddedRow(pad: nat, values: seq<Value>): (row: seq<CellData>)
    ensures |row| == pad + |values|
  {
    Blank(pad) + seq(|values|, j requires 0 <= j < |values| => CellData(values[j], None, None))
  }

  /** The rows a range sends: those that hold something. */
  function RangeRows(startRow: nat, pad: nat, rows: seq<seq<Value>>): seq<Row>
    requires startRow + |rows| <= 0xFFFF_FFFF
  {
    if rows == [] then []
    else
      var n := |rows| - 1;
      RangeRows(startRow, pad, rows[..n]) +
      if AllEmpty(rows[n]) then [] else [Row(startRow + n, PaddedRow(pad, rows[n]))]
  }

  /** Pushing rows one after another. */
  function PushAll(cfg: Config, b: Batcher, rows: seq<Row>): (r: (Batcher, seq<Event>))
    requires ValidTable(b.table)
    ensures ValidTable(r.0.table)
  {
    if rows == [] then (b, [])
    else
      var (b1, ev1) := PushAll(cfg, b, rows[..|rows| - 1]);
      var (b2, ev2) := Push(cfg, b1, rows[|rows| - 1]);
      (b2, ev1 + ev2)
  }

  /** The events of a range stream to a client that never goes away. */
  function RangeStream(cfg: Config, table: Option<Table>, range: Range, maxDenseCells: nat): seq<Event>
    requires ValidRange(range) && ValidTable(table)
  {
    if !RangeWithin(range, maxDenseCells) then [Refused]
    else if range.NoRange? then [Started]
    else
      var (b, ev) := PushAll(cfg, NewBatcher(Some(range.startRow), table),
                             RangeRows(range.startRow, range.startCol, range.rows));
      [Started] + ev + Flush(cfg, b).1
  }
}
