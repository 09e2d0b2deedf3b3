/** `walk_dense` (`bench/src/main.rs`): the row-by-row way to densify a sheet,
    one step for every row between the first and the last that hold a value. */
module DenseWalks {
  import opened Sequences
  import opened Contract

  datatype DenseCell = DenseCell(row: RowIndex, col: nat, value: Value)

  datatype DenseRow = DenseRow(index: nat, values: seq<Value>)

  predicate RowSorted(cells: seq<DenseCell>) {
    forall i, j :: 0 <= i < j < |cells| ==> cells[i].row <= cells[j].row
  }

  /** What arrived last at a position, a blank included. */
  function LastAt(cells: seq<DenseCell>, row: nat, col: nat): Value {
    if cells == [] then Empty
    else
      var last := cells[|cells| - 1];
      if last.row == row && last.col == col then last.value else LastAt(cells[..|cells| - 1], row, col)
  }

  ghost predicate HasValue(cells: seq<DenseCell>, row: nat) {
    exists k :: 0 <= k < |cells| && cells[k].row == row && !cells[k].value.Empty?
  }

  /** A row read past its end is empty. */
  function ValueIn(values: seq<Value>, col: nat): Value {
    if col < |values| then values[col] else Empty
  }

  /** The grid from the first row that held a value to the last, every row in
      between included, each cell the last that arrived there. It says
      everything about the rows but how many blanks they end in. */
  ghost predicate DenseGrid(cells: seq<DenseCell>, rows: seq<DenseRow>) {
    && Consecutive(rows)
    && (forall row: nat :: HasValue(cells, row) ==>
          rows != [] && rows[0].index <= row <= rows[|rows| - 1].index)
    && (rows != [] ==> HasValue(cells, rows[0].index) && HasValue(cells, rows[|rows| - 1].index))
    && RowsShow(cells, rows)
  }

  ghost predicate Consecutive(rows: seq<DenseRow>) {
    forall i :: 0 <= i < |rows| ==> rows[i].index == rows[0].index + i
  }

  ghost predicate RowsShow(cells: seq<DenseCell>, rows: seq<DenseRow>) {
    forall i, col: nat :: 0 <= i < |rows| ==> ValueIn(rows[i].values, col) == LastAt(cells, rows[i].index, col)
  }

  /** The same rows, up to the blanks they end in. */
  ghost predicate SameSheet(a: seq<DenseRow>, b: seq<DenseRow>) {
    && |a| == |b|
    && forall i :: 0 <= i < |a| ==> SameRow(a[i], b[i])
  }

  ghost predicate SameRow(a: DenseRow, b: DenseRow) {
    a.index == b.index && forall col: nat :: ValueIn(a.values, col) == ValueIn(b.values, col)
  }

  function Blanks(n: nat): (r: seq<Value>)
    ensures |r| == n && forall k :: 0 <= k < n ==> r[k] == Empty
  {
    seq(n, _ => Empty)
  }

  // ---- facts about arrivals ----

  lemma {:induction false} BlankRow(cells: seq<DenseCell>, row: nat, col: nat)
    requires forall k :: 0 <= k < |cells| && cells[k].row == row ==> cells[k].value.Empty?
    ensures LastAt(cells, row, col).Empty?
  {
    if cells == [] {
    } else {
      BlankRow(cells[..|cells| - 1], row, col);
    }
  }

  lemma MoreCells(cells: seq<DenseCell>, cell: DenseCell, row: nat)
    ensures HasValue(cells + [cell], row) <==> HasValue(cells, row) || (cell.row == row && !cell.value.Empty?)
    ensures forall col :: LastAt(cells + [cell], row, col) ==
                          if cell.row == row && cell.col == col then cell.value else LastAt(cells, row, col)
  {
    var all := cells + [cell];
    assert all[..|cells|] == cells && all[|cells|] == cell;
    if k :| 0 <= k < |cells| && cells[k].row == row && !cells[k].value.Empty? {
      assert all[k].row == row;
    }
  }

  // ---- the walk ----

  /** The rows emitted so far, and what is known of the rows up to `current`:
      nothing below it holds a value but what is emitted, and after the last
      emitted row come `pending` blank ones. */
  ghost predicate Emitted(cells: seq<DenseCell>, rows: seq<DenseRow>, current: nat, pending: nat) {
    && Consecutive(rows) && RowsShow(cells, rows)
    && (rows != [] ==>
          && HasValue(cells, rows[0].index) && HasValue(cells, rows[|rows| - 1].index)
          && rows[|rows| - 1].index + pending + 1 == current)
    && (rows == [] ==> pending == 0)
    && (forall row: nat :: row < current && HasValue(cells, row) ==>
          rows != [] && rows[0].index <= row <= rows[|rows| - 1].index)
  }

  /** The row under construction holds what arrived in it. */
  ghost predicate Building(cells: seq<DenseCell>, current: nat, values: seq<Value>, width: nat, hasValue: bool) {
    && |values| == width
    && (forall k :: 0 <= k < |cells| ==> cells[k].row <= current && cells[k].col < width)
    && (forall col: nat :: ValueIn(values, col) == LastAt(cells, current, col))
    && (hasValue <==> HasValue(cells, current))
  }

  /** Rows are as wide as the sheet declares, or wider, and never narrower
      than a row before. */
  ghost predicate Widening(rows: seq<DenseRow>, least: nat) {
    && (forall i :: 0 <= i < |rows| ==> least <= |rows[i].values|)
    && (forall i, j :: 0 <= i < j < |rows| ==> |rows[i].values| <= |rows[j].values|)
  }

  ghost predicate Padded(rows: seq<DenseRow>, least: nat, width: nat) {
    Widening(rows, least) && least <= width && forall i :: 0 <= i < |rows| ==> |rows[i].values| <= width
  }

  /** One more row at the end of the grid. */
  lemma OneMoreRow(cells: seq<DenseCell>, rows: seq<DenseRow>, row: DenseRow, least: nat, width: nat)
    requires Consecutive(rows) && RowsShow(cells, rows) && Padded(rows, least, width)
    requires |row.values| == width && (rows != [] ==> row.index == rows[0].index + |rows|)
    requires forall col: nat :: ValueIn(row.values, col) == LastAt(cells, row.index, col)
    ensures var out := rows + [row]; Consecutive(out) && RowsShow(cells, out) && Padded(out, least, width)
  {
    hide LastAt, ValueIn;
  }

  /** Emit the blank rows that turned out to be interior, then the row. */
  method Release(ghost cells: seq<DenseCell>, rows: seq<DenseRow>, index: nat, pending: nat, width: nat,
                 done: seq<Value>, ghost least: nat)
    returns (out: seq<DenseRow>)
    requires Emitted(cells, rows, index, pending) && Building(cells, index, done, width, true)
    requires Padded(rows, least, width)
    ensures out != [] && Emitted(cells, out, index + 1, 0) && Padded(out, least, width)
  {
    hide LastAt, HasValue, RowsShow, Padded;
    out := rows;
    var back := pending;
    while back > 0
      invariant 0 <= back <= pending
      invariant |out| == |rows| + pending - back && rows <= out
      invariant Consecutive(out) && RowsShow(cells, out) && Padded(out, least, width)
    {
      BlankBetween(cells, rows, index, pending, index - back);
      OneMoreRow(cells, out, DenseRow(index - back, Blanks(width)), least, width);
      out := out + [DenseRow(index - back, Blanks(width))];
      back := back - 1;
    }
    OneMoreRow(cells, out, DenseRow(index, done), least, width);
    out := out + [DenseRow(index, done)];
  }

  /** A row held back is blank. */
  lemma BlankBetween(cells: seq<DenseCell>, rows: seq<DenseRow>, index: nat, pending: nat, row: nat)
    requires Emitted(cells, rows, index, pending) && index - pending <= row < index
    ensures forall col :: LastAt(cells, row, col).Empty?
  {
    forall k | 0 <= k < |cells| && cells[k].row == row
      ensures cells[k].value.Empty?
    {
      assert !HasValue(cells, row);
    }
    forall col: nat
      ensures LastAt(cells, row, col).Empty?
    {
      BlankRow(cells, row, col);
    }
  }

  /** Past every cell there is nothing. */
  lemma FreshRow(cells: seq<DenseCell>, row: nat, width: nat)
    requires forall k :: 0 <= k < |cells| ==> cells[k].row < row && cells[k].col < width
    ensures Building(cells, row, Blanks(width), width, false)
  {
    forall col: nat
      ensures LastAt(cells, row, col).Empty?
    {
      BlankRow(cells, row, col);
    }
  }

  /** A cell placed in the row under construction. */
  lemma PlacedCell(cells: seq<DenseCell>, cell: DenseCell, values: seq<Value>, width: nat, hasValue: bool)
    requires Building(cells, cell.row, values, width, hasValue)
    ensures var wide := if cell.col < width then values else values + Blanks(cell.col + 1 - width);
            Building(cells + [cell], cell.row, wide[cell.col := cell.value], Max(width, cell.col + 1),
                     hasValue || !cell.value.Empty?)
  {
    MoreCells(cells, cell, cell.row);
  }

  /** A cell at the row under construction changes nothing about those before. */
  lemma StillEmitted(cells: seq<DenseCell>, cell: DenseCell, rows: seq<DenseRow>, pending: nat)
    requires Emitted(cells, rows, cell.row, pending)
    ensures Emitted(cells + [cell], rows, cell.row, pending)
  {
    forall row: nat
      ensures HasValue(cells + [cell], row) <==> HasValue(cells, row) || (cell.row == row && !cell.value.Empty?)
      ensures row != cell.row ==> forall col :: LastAt(cells + [cell], row, col) == LastAt(cells, row, col)
    {
      MoreCells(cells, cell, row);
    }
    hide HasValue, LastAt;
  }

  /** Complete every row before `row`: one step each. */
  method CatchUp(ghost seen: seq<DenseCell>, row: nat, current: nat, values: seq<Value>, width: nat,
                 rowHasValue: bool, started: bool, pendingEmpty: nat, rows: seq<DenseRow>, ghost least: nat)
    returns (values': seq<Value>, rowHasValue': bool, started': bool, pendingEmpty': nat, rows': seq<DenseRow>)
    requires current <= row && (started <==> rows != [])
    requires Emitted(seen, rows, current, pendingEmpty) && Building(seen, current, values, width, rowHasValue)
    requires Padded(rows, least, width)
    ensures started' <==> rows' != []
    ensures Emitted(seen, rows', row, pendingEmpty') && Building(seen, row, values', width, rowHasValue')
    ensures Padded(rows', least, width)
  {
    hide LastAt, HasValue, RowsShow;
    values', rowHasValue', started', pendingEmpty', rows' := values, rowHasValue, started, pendingEmpty, rows;
    var at := current;
    while at < row
      invariant at <= row && (started' <==> rows' != [])
      invariant Emitted(seen, rows', at, pendingEmpty')
      invariant Building(seen, at, values', width, rowHasValue')
      invariant Padded(rows', least, width)
    {
      if rowHasValue' {
        rows' := Release(seen, rows', at, pendingEmpty', width, values', least);
        pendingEmpty' := 0;
        started' := true;
      } else if started' {
        pendingEmpty' := pendingEmpty' + 1;
      }
      values' := Blanks(width);
      rowHasValue' := false;
      at := at + 1;
      FreshRow(seen, at, width);
    }
  }

  /** `walk_dense`, given the declared start row and end column. */
  method WalkDense(declaredRow: RowIndex, declaredCol: nat, cells: seq<DenseCell>) returns (rows: seq<DenseRow>)
    requires RowSorted(cells)
    ensures DenseGrid(cells, rows) && Widening(rows, declaredCol + 1)
  {
    hide Emitted, Building;
    var width: nat := declaredCol + 1;
    var currentRow: nat, values := declaredRow, Blanks(width);
    var open, rowHasValue, started, pendingEmpty: nat := false, false, false, 0;
    rows := [];
    NothingWalked(currentRow, width);
    assert cells[..0] == [];

    for k := 0 to |cells|
      invariant open <==> k > 0
      invariant open ==> currentRow == cells[k - 1].row
      invariant !open ==> !rowHasValue && pendingEmpty == 0 && rows == [] && values == Blanks(width)
      invariant started <==> rows != []
      invariant |values| == width
      invariant Emitted(cells[..k], rows, currentRow, pendingEmpty)
      invariant Building(cells[..k], currentRow, values, width, rowHasValue)
      invariant Padded(rows, declaredCol + 1, width)
    {
      var cell := cells[k];
      ghost var seen := cells[..k];
      if open {
        values, rowHasValue, started, pendingEmpty, rows :=
          CatchUp(seen, cell.row, currentRow, values, width, rowHasValue, started, pendingEmpty, rows, declaredCol + 1);
        AsWide(seen, cell.row, values, width, rowHasValue);
      } else {
        open := true;
        assert seen == [];
        NothingWalked(cell.row, width);
      }
      currentRow := cell.row;
      PlacedCell(seen, cell, values, width, rowHasValue);
      StillEmitted(seen, cell, rows, pendingEmpty);
      assert seen + [cell] == cells[..k + 1];
      if |values| <= cell.col {
        values := values + Blanks(cell.col + 1 - |values|);
      }
      width := Max(width, |values|);
      rowHasValue := rowHasValue || !cell.value.Empty?;
      values := values[cell.col := cell.value];
    }

    assert cells[..|cells|] == cells;
    if open && rowHasValue {
      rows := Release(cells, rows, currentRow, pendingEmpty, width, values, declaredCol + 1);
      AllWalked(cells, rows, currentRow + 1, 0);
    } else {
      NothingHere(cells, currentRow, values, width);
      NothingThere(cells, rows, currentRow, pendingEmpty);
      AllWalked(cells, rows, currentRow + 1, if rows == [] then 0 else pendingEmpty + 1);
    }
  }

  lemma AsWide(cells: seq<DenseCell>, row: nat, values: seq<Value>, width: nat, hasValue: bool)
    requires Building(cells, row, values, width, hasValue)
    ensures |values| == width
  {
  }

  lemma NothingWalked(row: nat, width: nat)
    ensures Emitted([], [], row, 0) && Building([], row, Blanks(width), width, false)
  {
  }

  lemma NothingHere(cells: seq<DenseCell>, current: nat, values: seq<Value>, width: nat)
    requires Building(cells, current, values, width, false)
    ensures !HasValue(cells, current) && forall k :: 0 <= k < |cells| ==> cells[k].row < current + 1
  {
  }

  lemma NothingThere(cells: seq<DenseCell>, rows: seq<DenseRow>, current: nat, pending: nat)
    requires Emitted(cells, rows, current, pending) && !HasValue(cells, current)
    ensures Emitted(cells, rows, current + 1, if rows == [] then 0 else pending + 1)
  {
    hide HasValue, LastAt;
  }

  lemma AllWalked(cells: seq<DenseCell>, rows: seq<DenseRow>, end: nat, pending: nat)
    requires Emitted(cells, rows, end, pending) && forall k :: 0 <= k < |cells| ==> cells[k].row < end
    ensures DenseGrid(cells, rows)
  {
    hide LastAt;
  }
}
