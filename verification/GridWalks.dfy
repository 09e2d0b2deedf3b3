/** `build_grid` (`bench/src/bin/packed.rs`): the dense walk whose completed
    rows go straight into batches, interning shared strings on the way. */
module GridWalks {
  import opened Sequences
  import opened DenseWalks
  import opened Packing
  import opened PackedDicts
  import opened GridBatches
  import C = Contract

  /** A cell value as the reader hands it over: a shared string is a borrow,
      anything else already a cell. */
  type OwnedCell = c: Cell | !c.Shared? witness Cell.Empty
  datatype Ref = Owned(cell: OwnedCell) | SharedRef(token: nat, text: Bytes)

  datatype RefCell = RefCell(row: C.RowIndex, col: nat, data: Ref)

  function RefValue(ref: Ref): C.Value {
    match ref
    case Owned(cell) => ValueOf(cell)
    case SharedRef(_, text) => C.Value.Shared(text)
  }

  /** The arrivals as the row-by-row walk reads them. */
  function Arrived(refs: seq<RefCell>): (cells: seq<DenseCell>)
    ensures |cells| == |refs|
    ensures forall k :: 0 <= k < |refs| ==>
                          cells[k] == DenseCell(refs[k].row, refs[k].col, RefValue(refs[k].data))
  {
    seq(|refs|, k requires 0 <= k < |refs| => DenseCell(refs[k].row, refs[k].col, RefValue(refs[k].data)))
  }

  // ---- interning ----

  function Entered(dict: Dict?): Option<seq<Bytes>>
    reads dict
  {
    if dict == null then None else Some(dict.entries)
  }

  /** There is room for an id for each of `n` more borrows. */
  ghost predicate Ready(dict: Dict?, n: nat)
    reads dict
  {
    dict != null ==> dict.Valid() && |dict.entries| + n <= U32_END
  }

  /** A borrow's text is what lies behind it. */
  ghost predicate IsBehind(texts: nat -> Bytes, ref: Ref) {
    ref.SharedRef? ==> ref.text == texts(ref.token)
  }

  ghost predicate AllBehind(texts: nat -> Bytes, refs: seq<RefCell>) {
    forall k :: 0 <= k < |refs| ==> IsBehind(texts, refs[k].data)
  }

  /** A dictionary that has only grown. */
  predicate Grown(was: Option<seq<Bytes>>, now: Option<seq<Bytes>>) {
    was.Some? == now.Some? && (was.Some? ==> was.value <= now.value)
  }

  /** `Cell::from_ref`. */
  method FromRef(ref: Ref, dict: Dict?, ghost n: nat) returns (cell: Cell)
    requires Ready(dict, n + 1)
    requires dict != null ==> IsBehind(dict.texts, ref)
    modifies dict
    ensures Ready(dict, n) && Grown(old(Entered(dict)), Entered(dict))
    ensures ValueOf(cell) == RefValue(ref) && Known([cell], Entered(dict))
  {
    hide PackedDicts.Owned, Joined;
    match ref
    case Owned(owned) => cell := owned;
    case SharedRef(token, text) =>
      var id: U32 := 0;
      if dict != null {
        id := dict.Intern(token, text);
      }
      cell := Cell.Shared(text, id);
  }

  lemma KnownStays(cells: seq<Cell>, was: Option<seq<Bytes>>, now: Option<seq<Bytes>>)
    requires Known(cells, was) && Grown(was, now)
    ensures Known(cells, now)
  {
  }

  lemma GridStays(grid: Grid, was: Option<seq<Bytes>>, now: Option<seq<Bytes>>)
    requires grid.Valid(was) && Grown(was, now)
    ensures grid.Valid(now)
  {
    hide Known, Rectangular, Grown;
    KnownStays(grid.pending, was, now);
    forall k | 0 <= k < |grid.batches|
      ensures Known(grid.batches[k].cells, now)
    {
      KnownStays(grid.batches[k].cells, was, now);
    }
  }

  // ---- rows into the grid ----

  /** The grid holds just `rows`, up to the blanks they end in, and goes on
      where they do. */
  ghost predicate Holds(grid: Grid, rows: seq<DenseRow>, dict: Option<seq<Bytes>>)
    reads grid
  {
    && grid.Valid(dict)
    && SameSheet(grid.Rows(), rows)
    && (grid.pending != [] ==>
          && rows != [] && grid.pendingWidth == |rows[|rows| - 1].values|
          && grid.pendingFirst + grid.Pending().Rows() == rows[|rows| - 1].index + 1)
  }

  method Push(grid: Grid, ghost rows: seq<DenseRow>, index: C.RowIndex, w: nat, cells: seq<Cell>,
              ghost dict: Option<seq<Bytes>>)
    requires Holds(grid, rows, dict) && w > 0 && |cells| == w && Known(cells, dict)
    requires rows != [] ==> rows[|rows| - 1].index + 1 == index && |rows[|rows| - 1].values| <= w
    modifies grid
    ensures Holds(grid, rows + [DenseRow(index, Values(cells))], dict)
  {
    hide SameSheet, Known, AllKnown, AllRectangular, Rectangular, RowsOf, FlatMap, Values;
    ghost var before, row := grid.Rows(), DenseRow(index, Values(cells));
    grid.PushRow(index, w, cells, dict);
    SameSheetGrows(grid.Rows(), before, rows, row);
  }

  lemma SameSheetGrows(now: seq<DenseRow>, before: seq<DenseRow>, rows: seq<DenseRow>, row: DenseRow)
    requires SameSheet(now, before + [row]) && SameSheet(before, rows)
    ensures SameSheet(now, rows + [row])
  {
    hide SameSheet;
    SameSheetJoins(before, rows, [], [row]);
    assert [] + before + [row] == before + [row] && [] + rows + [row] == rows + [row];
    SameSheetThrough(now, before + [row], rows + [row]);
  }

  /** What a row yet to be pushed is to the rows pushed: it comes next, and is
      no narrower. */
  lemma ComesNext(cells: seq<DenseCell>, rows: seq<DenseRow>, index: nat, pending: nat, least: nat, width: nat)
    requires Emitted(cells, rows, index, pending) && Padded(rows, least, width)
    ensures rows != [] ==> rows[|rows| - 1].index + pending + 1 == index && |rows[|rows| - 1].values| <= width
    ensures rows == [] ==> pending == 0
  {
    hide RowsShow, HasValue;
  }

  /** Push the blank rows that turned out to be interior, then the row. */
  method Release(grid: Grid, ghost cells: seq<DenseCell>, ghost rows: seq<DenseRow>, index: C.RowIndex, pending: nat,
                 width: nat, done: seq<Cell>, ghost least: nat, ghost dict: Option<seq<Bytes>>)
    returns (ghost out: seq<DenseRow>)
    requires Emitted(cells, rows, index, pending) && Building(cells, index, Values(done), width, true)
    requires Padded(rows, least, width) && 0 < least <= width
    requires Holds(grid, rows, dict) && Known(done, dict)
    modifies grid
    ensures out != [] && Emitted(cells, out, index + 1, 0) && Padded(out, least, width)
    ensures Holds(grid, out, dict)
  {
    hide LastAt, HasValue, RowsShow, Padded, Holds, Known, ValueOf;
    out := rows;
    ComesNext(cells, rows, index, pending, least, width);
    EmptyIsKnown(width, dict);
    var back := pending;
    while back > 0
      invariant 0 <= back <= pending
      invariant |out| == |rows| + pending - back && rows <= out
      invariant Consecutive(out) && RowsShow(cells, out) && Padded(out, least, width)
      invariant out != [] ==> out[|out| - 1].index + back + 1 == index && |out[|out| - 1].values| <= width
      invariant Holds(grid, out, dict)
    {
      BlankBetween(cells, rows, index, pending, index - back);
      OneMoreRow(cells, out, DenseRow(index - back, Blanks(width)), least, width);
      Push(grid, out, index - back, width, EmptyCells(width), dict);
      out := out + [DenseRow(index - back, Blanks(width))];
      back := back - 1;
    }
    OneMoreRow(cells, out, DenseRow(index, Values(done)), least, width);
    Push(grid, out, index, width, done, dict);
    out := out + [DenseRow(index, Values(done))];
  }

  /** The loop's variables: the row under construction, whether there is one
      and whether it holds anything; the width so far; whether a row has gone
      out; and how many blank ones are held back. */
  datatype Vars = Vars(open: bool, current: C.RowIndex, values: seq<Cell>, width: nat, rowHasValue: bool,
                       started: bool, pendingEmpty: nat)

  /** The grid holds the rows completed before `row`, and the variables what is
      known of `row` itself. */
  ghost predicate Reached(grid: Grid, seen: seq<DenseCell>, rows: seq<DenseRow>, v: Vars, row: nat, least: nat,
                          dict: Option<seq<Bytes>>)
    reads grid
  {
    && (v.started <==> rows != [])
    && Emitted(seen, rows, row, v.pendingEmpty)
    && Building(seen, row, Values(v.values), v.width, v.rowHasValue)
    && Padded(rows, least, v.width) && 0 < least <= v.width
    && Holds(grid, rows, dict) && Known(v.values, dict)
  }

  /** Complete every row before `row`: one step each. */
  method CatchUp(grid: Grid, ghost seen: seq<DenseCell>, row: C.RowIndex, ghost rows: seq<DenseRow>, v: Vars,
                 ghost least: nat, ghost dict: Option<seq<Bytes>>)
    returns (v': Vars, ghost rows': seq<DenseRow>)
    requires v.current <= row && Reached(grid, seen, rows, v, v.current, least, dict)
    modifies grid
    ensures v'.width == v.width && Reached(grid, seen, rows', v', row, least, dict)
  {
    hide LastAt, HasValue, RowsShow, Padded, Holds, Known;
    v', rows' := v, rows;
    EmptyIsKnown(v.width, dict);
    var at := v.current;
    while at < row
      invariant at <= row && v'.width == v.width && Reached(grid, seen, rows', v', at, least, dict)
    {
      if v'.rowHasValue {
        rows' := Release(grid, seen, rows', at, v'.pendingEmpty, v.width, v'.values, least, dict);
        v' := v'.(pendingEmpty := 0, started := true);
      } else if v'.started {
        v' := v'.(pendingEmpty := v'.pendingEmpty + 1);
      }
      v' := v'.(values := EmptyCells(v.width), rowHasValue := false);
      at := at + 1;
      FreshRow(seen, at, v.width);
    }
  }

  /** What the walk has when it is about to take the next cell. */
  ghost predicate Walking(grid: Grid, seen: seq<DenseCell>, rows: seq<DenseRow>, v: Vars, least: nat,
                          dict: Option<seq<Bytes>>)
    reads grid
  {
    && (v.open <==> seen != [])
    && (v.open ==> v.current == seen[|seen| - 1].row)
    && (!v.open ==> !v.rowHasValue && v.pendingEmpty == 0 && rows == [] && v.values == EmptyCells(v.width))
    && Reached(grid, seen, rows, v, v.current, least, dict)
  }

  lemma WalkStarts(grid: Grid, row: C.RowIndex, width: nat, dict: Option<seq<Bytes>>)
    requires grid.Valid(dict) && grid.Rows() == [] && grid.pending == [] && width > 0
    ensures Walking(grid, [], [], Vars(false, row, EmptyCells(width), width, false, false, 0), width, dict)
  {
    NothingWalked(row, width);
    EmptyIsKnown(width, dict);
    SameSheetSelf([]);
    hide Emitted, Building, Known;
  }

  /** The walk up to the row of the next cell. */
  method Reach(grid: Grid, ghost seen: seq<DenseCell>, row: C.RowIndex, ghost rows: seq<DenseRow>, v: Vars,
               ghost least: nat, ghost dict: Option<seq<Bytes>>)
    returns (v': Vars, ghost rows': seq<DenseRow>)
    requires Walking(grid, seen, rows, v, least, dict) && (seen != [] ==> seen[|seen| - 1].row <= row)
    modifies grid
    ensures v'.open && v'.current == row && Reached(grid, seen, rows', v', row, least, dict)
  {
    hide Emitted, Building, Padded, Holds, Known;
    v', rows' := v, rows;
    if v.open {
      v', rows' := CatchUp(grid, seen, row, rows, v, least, dict);
    } else {
      NothingWalked(row, v.width);
      EmptyIsKnown(v.width, dict);
    }
    v' := v'.(open := true, current := row);
  }

  /** The row widened for a cell, and the cell in it. */
  function CellPut(values: seq<Cell>, width: nat, col: nat, cell: Cell): seq<Cell>
    requires |values| == width
  {
    (if col < width then values else values + EmptyCells(col + 1 - width))[col := cell]
  }

  lemma PutValues(values: seq<Cell>, width: nat, col: nat, cell: Cell)
    requires |values| == width
    ensures Values(CellPut(values, width, col, cell)) ==
            (if col < width then Values(values) else Values(values) + Blanks(col + 1 - width))[col := ValueOf(cell)]
  {
    hide ValueOf;
    assert ValueOf(Cell.Empty) == C.Value.Empty by {
      EmptyIsBlank();
    }
  }

  lemma EmptyIsBlank()
    ensures forall cell: Cell :: cell.Empty? <==> ValueOf(cell).Empty?
  {
  }

  lemma PutIsKnown(values: seq<Cell>, width: nat, col: nat, cell: Cell, dict: Option<seq<Bytes>>)
    requires |values| == width && Known(values, dict) && Known([cell], dict)
    ensures Known(CellPut(values, width, col, cell), dict)
  {
    assert [cell][0] == cell;
  }

  lemma PlacedInRow(seen: seq<DenseCell>, ref: RefCell, cell: Cell, values: seq<Cell>, width: nat, hasValue: bool,
                    dict: Option<seq<Bytes>>)
    requires Building(seen, ref.row, Values(values), width, hasValue) && Known(values, dict)
    requires ValueOf(cell) == RefValue(ref.data) && Known([cell], dict)
    ensures |values| == width && Known(CellPut(values, width, ref.col, cell), dict)
    ensures Building(seen + [DenseCell(ref.row, ref.col, RefValue(ref.data))], ref.row,
                     Values(CellPut(values, width, ref.col, cell)), Max(width, ref.col + 1),
                     hasValue || !cell.Empty?)
  {
    AsWide(seen, ref.row, Values(values), width, hasValue);
    EmptyIsBlank();
    hide Building, ValueOf, RefValue, Known, CellPut;
    PlacedCell(seen, DenseCell(ref.row, ref.col, RefValue(ref.data)), Values(values), width, hasValue);
    PutValues(values, width, ref.col, cell);
    PutIsKnown(values, width, ref.col, cell, dict);
  }

  /** The variables once a cell is placed in the row they have reached. */
  function Taken(v: Vars, col: nat, cell: Cell): Vars
    requires |v.values| == v.width
  {
    v.(values := CellPut(v.values, v.width, col, cell), width := Max(v.width, col + 1),
       rowHasValue := v.rowHasValue || !cell.Empty?)
  }

  lemma CellTaken(grid: Grid, seen: seq<DenseCell>, ref: RefCell, cell: Cell, rows: seq<DenseRow>, v: Vars,
                  least: nat, dict: Option<seq<Bytes>>)
    requires v.open && v.current == ref.row && Reached(grid, seen, rows, v, ref.row, least, dict)
    requires ValueOf(cell) == RefValue(ref.data) && Known([cell], dict)
    ensures |v.values| == v.width
    ensures Walking(grid, seen + [DenseCell(ref.row, ref.col, RefValue(ref.data))], rows, Taken(v, ref.col, cell),
                    least, dict)
  {
    hide Emitted, Building, Padded, Holds, Known, ValueOf, RefValue, CellPut, Values;
    PlacedInRow(seen, ref, cell, v.values, v.width, v.rowHasValue, dict);
    StillEmitted(seen, DenseCell(ref.row, ref.col, RefValue(ref.data)), rows, v.pendingEmpty);
    PaddedWider(rows, least, v.width, Max(v.width, ref.col + 1));
  }

  lemma PaddedWider(rows: seq<DenseRow>, least: nat, width: nat, wider: nat)
    requires Padded(rows, least, width) && width <= wider
    ensures Padded(rows, least, wider)
  {
  }

  /** The walk where it stands, with the dictionary grown. */
  lemma ReachedStays(grid: Grid, seen: seq<DenseCell>, rows: seq<DenseRow>, v: Vars, row: nat, least: nat,
                     was: Option<seq<Bytes>>, now: Option<seq<Bytes>>)
    requires Reached(grid, seen, rows, v, row, least, was) && Grown(was, now)
    ensures Reached(grid, seen, rows, v, row, least, now)
  {
    GridStays(grid, was, now);
    KnownStays(v.values, was, now);
    hide SameSheet, Known, AllKnown, Rectangular, AllRectangular, Emitted, Building, Padded;
  }

  /** One turn of the loop: catch up, convert the cell, and place it. */
  method TakeRef(grid: Grid, ghost seen: seq<DenseCell>, ref: RefCell, ghost rows: seq<DenseRow>, v: Vars,
                 ghost least: nat, dict: Dict?, ghost n: nat)
    returns (v': Vars, ghost rows': seq<DenseRow>)
    requires Walking(grid, seen, rows, v, least, Entered(dict)) && (seen != [] ==> seen[|seen| - 1].row <= ref.row)
    requires Ready(dict, n + 1)
    requires dict != null ==> IsBehind(dict.texts, ref.data)
    modifies grid, dict
    ensures Ready(dict, n) && Grown(old(Entered(dict)), Entered(dict))
    ensures Walking(grid, seen + [DenseCell(ref.row, ref.col, RefValue(ref.data))], rows', v', least, Entered(dict))
  {
    hide Reached, Known, Grown, Walking, RefValue, ValueOf, Dict.Valid;
    ghost var known := Entered(dict);
    v', rows' := Reach(grid, seen, ref.row, rows, v, least, known);
    var cell := FromRef(ref.data, dict, n);
    ReachedStays(grid, seen, rows', v', ref.row, least, known, Entered(dict));
    CellTaken(grid, seen, ref, cell, rows', v', least, Entered(dict));
    if ref.col >= v'.width {
      v' := v'.(width := ref.col + 1, values := v'.values + EmptyCells(ref.col + 1 - v'.width));
    }
    if !cell.Empty? {
      v' := v'.(rowHasValue := true);
    }
    v' := v'.(values := v'.values[ref.col := cell]);
  }

  lemma NextInOrder(refs: seq<RefCell>, k: nat)
    requires RowSorted(Arrived(refs)) && k < |refs|
    ensures var cells, ref := Arrived(refs), refs[k];
            && cells[..k + 1] == cells[..k] + [DenseCell(ref.row, ref.col, RefValue(ref.data))]
            && (k > 0 ==> cells[..k] != [] && cells[..k][k - 1].row <= ref.row)
  {
    hide RefValue;
  }

  /** The loop over the reader's cells. */
  method WalkRefs(grid: Grid, refs: seq<RefCell>, declaredRow: C.RowIndex, declaredWidth: nat, dict: Dict?)
    returns (v: Vars, ghost rows: seq<DenseRow>)
    requires RowSorted(Arrived(refs)) && Ready(dict, |refs|) && (dict != null ==> AllBehind(dict.texts, refs))
    requires grid.Valid(Entered(dict)) && grid.Rows() == [] && grid.pending == [] && declaredWidth > 0
    modifies grid, dict
    ensures Ready(dict, 0) && Grown(old(Entered(dict)), Entered(dict))
    ensures Walking(grid, Arrived(refs), rows, v, declaredWidth, Entered(dict))
  {
    hide Grown, Walking, RefValue, Ready, Grid.Valid, IsBehind, Arrived, RowSorted;
    v, rows := Vars(false, declaredRow, EmptyCells(declaredWidth), declaredWidth, false, false, 0), [];
    WalkStarts(grid, declaredRow, declaredWidth, Entered(dict));
    GrownSelf(Entered(dict));
    AllOrNone(Arrived(refs));
    for k := 0 to |refs|
      invariant Ready(dict, |refs| - k) && Grown(old(Entered(dict)), Entered(dict))
      invariant Walking(grid, Arrived(refs)[..k], rows, v, declaredWidth, Entered(dict))
    {
      ghost var was := Entered(dict);
      NextInOrder(refs, k);
      v, rows := TakeRef(grid, Arrived(refs)[..k], refs[k], rows, v, declaredWidth, dict, |refs| - k - 1);
      GrownThrough(old(Entered(dict)), was, Entered(dict));
    }
  }

  lemma AllOrNone(cells: seq<DenseCell>)
    ensures cells[..0] == [] && cells[..|cells|] == cells
  {
  }

  lemma GrownSelf(dict: Option<seq<Bytes>>)
    ensures Grown(dict, dict)
  {
  }

  lemma GrownThrough(a: Option<seq<Bytes>>, b: Option<seq<Bytes>>, c: Option<seq<Bytes>>)
    requires Grown(a, b) && Grown(b, c)
    ensures Grown(a, c)
  {
  }

  /** The end of the sheet: the row under construction, if it holds anything. */
  method Finish(grid: Grid, ghost cells: seq<DenseCell>, ghost rows: seq<DenseRow>, v: Vars, ghost least: nat,
                ghost dict: Option<seq<Bytes>>)
    returns (ghost out: seq<DenseRow>)
    requires RowSorted(cells) && Walking(grid, cells, rows, v, least, dict)
    modifies grid
    ensures DenseGrid(cells, out) && Holds(grid, out, dict)
  {
    hide Emitted, Building, Padded, Holds, Known;
    if v.open && v.rowHasValue {
      AllBefore(cells, v.current, Values(v.values), v.width, v.rowHasValue);
      out := Release(grid, cells, rows, v.current, v.pendingEmpty, v.width, v.values, least, dict);
      AllWalked(cells, out, v.current + 1, 0);
    } else {
      out := rows;
      NothingHere(cells, v.current, Values(v.values), v.width);
      NothingThere(cells, rows, v.current, v.pendingEmpty);
      AllWalked(cells, rows, v.current + 1, if rows == [] then 0 else v.pendingEmpty + 1);
    }
  }

  lemma AllBefore(cells: seq<DenseCell>, current: nat, values: seq<C.Value>, width: nat, hasValue: bool)
    requires Building(cells, current, values, width, hasValue)
    ensures forall k :: 0 <= k < |cells| ==> cells[k].row < current + 1
  {
  }

  /** What is still pending at the end is one more batch. */
  method LastPending(grid: Grid, ghost rows: seq<DenseRow>, ghost dict: Option<seq<Bytes>>)
    returns (batches: seq<Batch>)
    requires Holds(grid, rows, dict)
    ensures AllRectangular(batches) && AllKnown(batches, dict) && SameSheet(BatchRows(batches), rows)
    ensures forall k :: 0 <= k < |batches| ==>
                          || batches[k].Rows() == Max(grid.batchRows, 1)
                          || (k == |batches| - 1 && batches[k].Rows() < grid.batchRows)
  {
    hide SameSheet, RowsOf, Rectangular, Known;
    batches := grid.batches;
    LastBatch(batches, grid.Pending());
    if grid.pending != [] {
      batches := batches + [grid.Pending()];
    }
  }

  /** `build_grid`. Every batch is rectangular with row `j` at `firstRow + j`,
      all but the last are full, the dictionary has every shared string, and
      together the batches are the rows of the dense grid. */
  method BuildGrid(declaredRow: C.RowIndex, declaredCol: nat, refs: seq<RefCell>, batchRows: nat, dict: Dict?)
    returns (batches: seq<Batch>, ghost rows: seq<DenseRow>)
    requires RowSorted(Arrived(refs)) && Ready(dict, |refs|) && (dict != null ==> AllBehind(dict.texts, refs))
    modifies dict
    ensures Ready(dict, 0) && Grown(old(Entered(dict)), Entered(dict))
    ensures AllRectangular(batches) && AllKnown(batches, Entered(dict))
    ensures forall k :: 0 <= k < |batches| ==>
                          || batches[k].Rows() == Max(batchRows, 1)
                          || (k == |batches| - 1 && batches[k].Rows() < batchRows)
    ensures DenseGrid(Arrived(refs), rows) && SameSheet(BatchRows(batches), rows)
  {
    var grid := new Grid(batchRows, declaredCol + 1);
    hide Walking, Grid.Valid, Holds, Dict.Valid;
    var v;
    v, rows := WalkRefs(grid, refs, declaredRow, declaredCol + 1, dict);
    rows := Finish(grid, Arrived(refs), rows, v, declaredCol + 1, Entered(dict));
    batches := LastPending(grid, rows, Entered(dict));
  }
}
