/** The one-pass walk of a sheet's cells (`src/service.rs`,
    `emit_incremental`), as a function of the cells that have arrived. */
module Walking {
  import opened Sequences
  import opened Contract
  import opened StringTables
  import opened Batching

  /** A cell value as the reader hands it over: a shared string is a borrow
      known by its identity, anything else is already a contract value, though
      never an id, which only the stream itself hands out. */
  type ReadValue = v: Value | !v.SharedId? witness Empty
  datatype Raw = Plain(value: ReadValue) | Borrowed(token: nat, text: Bytes)

  datatype Arrival = Arrival(row: RowIndex, col: nat, raw: Raw, formula: Option<Bytes>, styleId: Option<nat>)

  /** A converted cell at its position. */
  datatype Cell = Cell(row: RowIndex, col: nat, data: CellData)

  /** Conversion: with a table, a shared string becomes its id. */
  function Convert(table: Option<Table>, a: Arrival): (Option<Table>, Cell) {
    match a.raw
    case Plain(value) => (table, Cell(a.row, a.col, CellData(value, a.formula, a.styleId)))
    case Borrowed(token, text) =>
      if table.None? then (None, Cell(a.row, a.col, CellData(Shared(text), a.formula, a.styleId)))
      else
        var (t, id) := Interned(table.value, token, text);
        (Some(t), Cell(a.row, a.col, CellData(SharedId(id), a.formula, a.styleId)))
  }

  datatype Status = Running | Aborted | Completed | Failed

  /** The walk's variables: the row under construction, the batcher, and every
      event sent so far to a client that never goes away. */
  datatype Walk = Walk(
    open: bool,
    currentRow: RowIndex,
    values: seq<CellData>,
    batcher: Batcher,
    events: seq<Event>,
    status: Status)

  function Begin(declaredRow: RowIndex, header: Option<nat>, table: Option<Table>): Walk {
    Walk(false, declaredRow, [], NewBatcher(header, table), [Started], Running)
  }

  /** Cells above the selected header row and cells that carry nothing are not
      part of the sheet. */
  predicate Kept(header: Option<nat>, cell: Cell) {
    && (header.Some? ==> cell.row >= header.value)
    && Carries(cell.data)
  }

  function Blank(n: nat): seq<CellData> {
    seq(n, _ => EMPTY_CELL)
  }

  /** `values.resize(col + 1)` when the row is shorter, then the assignment. */
  function Placed(values: seq<CellData>, col: nat, data: CellData): seq<CellData> {
    (if col < |values| then values else values + Blank(col + 1 - |values|))[col := data]
  }

  function LateRow(cell: Cell): Row {
    Row(cell.row, Placed([], cell.col, cell.data))
  }

  function Pushed(cfg: Config, w: Walk, row: Row): Walk
    requires ValidTable(w.batcher.table)
  {
    var (b, events) := Push(cfg, w.batcher, row);
    w.(batcher := b, events := w.events + events)
  }

  function Abort(w: Walk, row: nat, col: nat): Walk {
    w.(events := w.events + [Unsorted(row, col)], status := Aborted)
  }

  /** One kept cell: a late one is queued by itself or ends the stream; any
      other closes the row under construction if it is past it, and is placed. */
  function Take(cfg: Config, w: Walk, cell: Cell): Walk
    requires ValidTable(w.batcher.table)
  {
    if w.open && cell.row < w.currentRow then
      if !Accepts(w.batcher, cell.row) then Abort(w, cell.row, cell.col)
      else Pushed(cfg, w, LateRow(cell))
    else if w.open && cell.row != w.currentRow then
      if !Accepts(w.batcher, w.currentRow) then Abort(w, w.currentRow, 0)
      else
        var w' := Pushed(cfg, w, Row(w.currentRow, w.values));
        w'.(currentRow := cell.row, values := Placed([], cell.col, cell.data))
    else
      w.(open := true, currentRow := cell.row, values := Placed(w.values, cell.col, cell.data))
  }

  function Step(cfg: Config, header: Option<nat>, w: Walk, a: Arrival): (w': Walk)
    requires ValidTable(w.batcher.table)
    ensures ValidTable(w'.batcher.table)
  {
    if !w.status.Running? then w
    else
      var (table, cell) := Convert(w.batcher.table, a);
      var w' := w.(batcher := w.batcher.(table := table));
      if Kept(header, cell) then Take(cfg, w', cell) else w'
  }

  /** The end of the sheet: the row under construction, then the queue. */
  function Finish(cfg: Config, w: Walk): Walk
    requires ValidTable(w.batcher.table)
  {
    if !w.status.Running? then w
    else if w.open && !Accepts(w.batcher, w.currentRow) then Abort(w, w.currentRow, 0)
    else
      var w' := if w.open then Pushed(cfg, w, Row(w.currentRow, w.values)) else w;
      var (b, events) := Flush(cfg, w'.batcher);
      w'.(batcher := b, events := w'.events + events, status := Completed)
  }

  function Fail(w: Walk): Walk {
    if !w.status.Running? then w else w.(events := w.events + [ReadFailed], status := Failed)
  }

  /** A stream's fixed inputs: the batcher's set-up, the selected header row,
      the declared start row, and whether the client asked for a table. */
  datatype Setup = Setup(cfg: Config, header: Option<nat>, declaredRow: RowIndex, useTable: bool)

  function FirstTable(s: Setup): Option<Table> {
    if s.useTable then Some(NEW_TABLE) else None
  }

  /** The walk once `arrivals` have arrived. */
  function Walked(s: Setup, arrivals: seq<Arrival>): (w: Walk)
    ensures ValidTable(w.batcher.table)
  {
    if arrivals == [] then Begin(s.declaredRow, s.header, FirstTable(s))
    else Step(s.cfg, s.header, Walked(s, arrivals[..|arrivals| - 1]), arrivals[|arrivals| - 1])
  }

  /** The whole stream: the cells, then the end of the sheet or a read error. */
  function Stream(s: Setup, arrivals: seq<Arrival>, readError: bool): Walk {
    if readError then Fail(Walked(s, arrivals)) else Finish(s.cfg, Walked(s, arrivals))
  }

  /** The table after converting `arrivals`: sending does not change its ids. */
  function Interning(useTable: bool, arrivals: seq<Arrival>): (table: Option<Table>)
    ensures useTable ==> table.Some?
  {
    if arrivals == [] then (if useTable then Some(NEW_TABLE) else None)
    else
      Convert(Interning(useTable, arrivals[..|arrivals| - 1]), arrivals[|arrivals| - 1]).0
  }

  function Converted(useTable: bool, arrivals: seq<Arrival>): seq<Cell> {
    if arrivals == [] then []
    else
      var before := arrivals[..|arrivals| - 1];
      Converted(useTable, before) + [Convert(Interning(useTable, before), arrivals[|arrivals| - 1]).1]
  }

  /** The kept cells of a stream, in arrival order. */
  function KeptCells(header: Option<nat>, cells: seq<Cell>): seq<Cell> {
    if cells == [] then []
    else
      var last := cells[|cells| - 1];
      KeptCells(header, cells[..|cells| - 1]) + (if Kept(header, last) then [last] else [])
  }

  /** The sheet itself: the last cell kept at each position wins. */
  function Latest(cells: seq<Cell>, row: nat, col: nat): Option<CellData> {
    if cells == [] then None
    else
      var last := cells[|cells| - 1];
      if last.row == row && last.col == col then Some(last.data)
      else Latest(cells[..|cells| - 1], row, col)
  }
}
