/** What `RowBatcher` does (`src/service.rs`), as functions on values: queue,
    merge, sort, split into runs, announce gaps. */
module Batching {
  import opened Sequences
  import opened Contract
  import opened StringTables

  const DEFAULT_MAX_ROWS_PER_MESSAGE := 256
  const LINGER_CHECK_EVERY := 32
  const MAX_ROWS_PER_MESSAGE_CEILING := 65_536
  const MAX_FRAME_BYTES := 32 * 1024 * 1024
  const MAX_BATCH_BYTES := MAX_FRAME_BYTES / 4

  function ApproxCellBytes(cell: CellData): nat {
    6
    + (if cell.formula.Some? then |cell.formula.value| + 6 else 0)
    + (if cell.styleId.Some? then 6 else 0)
    + (match cell.value
       case Str(s) => |s|
       case Shared(s) => |s|
       case DateTimeIso(s) => |s|
       case DurationIso(s) => |s|
       case _ => 8)
  }

  function ApproxRowBytes(values: seq<CellData>): nat {
    Sum(ApproxCellBytes, values)
  }

  function ApproxBytes(rows: seq<Row>): nat {
    Sum((row: Row) => ApproxRowBytes(row.values), rows)
  }

  lemma ApproxBytesAppend(rows: seq<Row>, row: Row)
    ensures ApproxBytes(rows + [row]) == ApproxBytes(rows) + ApproxRowBytes(row.values)
  {
    SumOne((row: Row) => ApproxRowBytes(row.values), row);
    SumAppend((row: Row) => ApproxRowBytes(row.values), rows, [row]);
  }

  /** How a batcher is set up, and what it cannot know: `expired(k)` is whether
      the linger has passed when the k-th pushed row asks the clock, and `tie`
      is how an unstable sort happens to order two rows of one index. */
  datatype Config = Config(cap: nat, single: bool, expired: nat -> bool, tie: (Row, Row) -> bool)

  function Configure(maxRowsPerMessage: nat, expired: nat -> bool, tie: (Row, Row) -> bool): (cfg: Config)
    ensures 0 < cfg.cap <= 65_536
    ensures cfg.single <==> maxRowsPerMessage == 1
    ensures maxRowsPerMessage <= 1 ==> cfg.cap == 256
    ensures 1 < maxRowsPerMessage <= 65_536 ==> cfg.cap == maxRowsPerMessage
    ensures maxRowsPerMessage > 65_536 ==> cfg.cap == 65_536
    ensures cfg.expired == expired && cfg.tie == tie
  {
    var requested := if maxRowsPerMessage == 0 then DEFAULT_MAX_ROWS_PER_MESSAGE
                     else Min(maxRowsPerMessage, MAX_ROWS_PER_MESSAGE_CEILING);
    var single := requested == 1;
    Config(if single then DEFAULT_MAX_ROWS_PER_MESSAGE else requested, single, expired, tie)
  }

  /** The batcher's fields on values. `pushes` counts the rows pushed. */
  datatype Batcher = Batcher(
    rows: seq<Row>,
    nextExpected: Option<nat>,
    highestSent: Option<nat>,
    pushes: nat,
    table: Option<Table>)

  function NewBatcher(start: Option<nat>, table: Option<Table>): Batcher {
    Batcher([], start, None, 0, table)
  }

  predicate Accepts(b: Batcher, row: nat) {
    b.highestSent.None? || row > b.highestSent.value
  }

  // ---- the queue -------------------------------------------------------------

  /** `merge_row_values`: later values win where they carry something. */
  function Merge(into: seq<CellData>, from: seq<CellData>): (merged: seq<CellData>)
    ensures |merged| == Max(|into|, |from|)
    ensures forall c :: 0 <= c < |merged| ==> merged[c] == MergedCell(into, from, c)
  {
    seq(Max(|into|, |from|), c requires 0 <= c < Max(|into|, |from|) => MergedCell(into, from, c))
  }

  function MergedCell(into: seq<CellData>, from: seq<CellData>, c: nat): CellData {
    if c < |from| && Carries(from[c]) then from[c]
    else if c < |into| then into[c]
    else EMPTY_CELL
  }

  /** The position of the first queued row of index `index`. */
  function FindRow(rows: seq<Row>, index: nat): (k: Option<nat>)
    ensures k.Some? ==> k.value < |rows| && rows[k.value].index == index
    ensures k.Some? ==> forall j :: 0 <= j < k.value ==> rows[j].index != index
    ensures k.None? ==> forall j :: 0 <= j < |rows| ==> rows[j].index != index
  {
    if rows == [] then None
    else
      var before := FindRow(rows[..|rows| - 1], index);
      if before.Some? then before
      else if rows[|rows| - 1].index == index then Some(|rows| - 1)
      else None
  }

  function Enqueue(rows: seq<Row>, row: Row): seq<Row> {
    if rows == [] || row.index > rows[|rows| - 1].index then rows + [row]
    else
      match FindRow(rows, row.index)
      case Some(k) => rows[k := Row(row.index, Merge(rows[k].values, row.values))]
      case None => rows + [row]
  }

  /** A push whose row is past the last queued one is appended without a look
      at the rest of the queue; blind when the queue already has its index. */
  predicate BlindAppend(rows: seq<Row>, index: nat) {
    && rows != []
    && index > rows[|rows| - 1].index
    && exists k :: 0 <= k < |rows| && rows[k].index == index
  }

  predicate Full(cfg: Config, rows: seq<Row>) {
    |rows| >= cfg.cap || ApproxBytes(rows) >= MAX_BATCH_BYTES
  }

  predicate Lingered(cfg: Config, rows: seq<Row>, push: nat) {
    (|rows| < LINGER_CHECK_EVERY || |rows| % LINGER_CHECK_EVERY == 0) && cfg.expired(push)
  }

  // ---- sending ---------------------------------------------------------------

  /** Rows by index; `tie` places a row among others of its own index. */
  function Insert(rows: seq<Row>, row: Row, tie: (Row, Row) -> bool): seq<Row> {
    if rows == [] then [row]
    else
      var last := rows[|rows| - 1];
      if last.index < row.index || (last.index == row.index && tie(row, last)) then rows + [row]
      else Insert(rows[..|rows| - 1], row, tie) + [last]
  }

  function SortRows(rows: seq<Row>, tie: (Row, Row) -> bool): (sorted: seq<Row>)
    ensures |sorted| == |rows|
  {
    if rows == [] then []
    else
      InsertLength(SortRows(rows[..|rows| - 1], tie), rows[|rows| - 1], tie);
      Insert(SortRows(rows[..|rows| - 1], tie), rows[|rows| - 1], tie)
  }

  lemma InsertLength(rows: seq<Row>, row: Row, tie: (Row, Row) -> bool)
    ensures |Insert(rows, row, tie)| == |rows| + 1
  {
  }

  function Carried(cfg: Config, run: seq<Row>): seq<Event> {
    if cfg.single then seq(|run|, k requires 0 <= k < |run| => OneRow(run[k])) else [Rows(run)]
  }

  function Announced(row: nat, next: Option<nat>): seq<Event> {
    if next.Some? && row > next.value then [RowGap(next.value, row - next.value)] else []
  }

  /** `send_run`: the gap before the run, if there is one, then the run. */
  function SendRun(cfg: Config, run: seq<Row>, next: Option<nat>): seq<Event> {
    if run == [] then [] else Announced(run[0].index, next) + Carried(cfg, run)
  }

  /** What is still to be sent by a flush that has collected `run` and has
      `rest` of its sorted rows ahead. */
  function FlushFrom(cfg: Config, run: seq<Row>, rest: seq<Row>, next: Option<nat>): seq<Event>
    decreases |rest|
  {
    if rest == [] then SendRun(cfg, run, next)
    else if run != [] && rest[0].index != run[|run| - 1].index + 1 then
      SendRun(cfg, run, next) + FlushFrom(cfg, [rest[0]], rest[1..], NextAfter(run, next))
    else FlushFrom(cfg, run + [rest[0]], rest[1..], next)
  }

  function NewStrings(table: Option<Table>): (r: (Option<Table>, seq<Event>))
    requires table.Some? ==> |table.value.pending| <= table.value.nextId
  {
    if table.None? then (None, [])
    else (Some(table.value.(pending := [])), Chunks(table.value.pending, table.value.nextId))
  }

  predicate ValidTable(table: Option<Table>) {
    table.Some? ==> |table.value.pending| <= table.value.nextId
  }

  /** The batcher after a flush, and the events the flush sends. */
  function Flush(cfg: Config, b: Batcher): (r: (Batcher, seq<Event>))
    requires ValidTable(b.table)
    ensures ValidTable(r.0.table)
  {
    if b.rows == [] then (b, [])
    else
      var sorted := SortRows(b.rows, cfg.tie);
      var (table, chunks) := NewStrings(b.table);
      var last := sorted[|sorted| - 1].index;
      (Batcher([], Some(last + 1), Some(last), b.pushes, table),
       chunks + FlushFrom(cfg, [], sorted, b.nextExpected))
  }

  /** The batcher after a push, and the events the push sends. */
  function Push(cfg: Config, b: Batcher, row: Row): (r: (Batcher, seq<Event>))
    requires ValidTable(b.table)
    ensures ValidTable(r.0.table)
  {
    var rows := Enqueue(b.rows, row);
    var b' := b.(rows := rows, pushes := b.pushes + 1);
    if Full(cfg, rows) || Lingered(cfg, rows, b.pushes) then Flush(cfg, b') else (b', [])
  }
}
