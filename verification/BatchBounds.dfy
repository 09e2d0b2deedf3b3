/** How large a batch can get: the byte estimate that closes it, against the
    protobuf encoding of the message it becomes. */
module BatchBounds {
  import opened Sequences
  import opened Contract
  import opened StringTables
  import opened Batching
  import opened BatcherInvariant
  import opened Walking
  import opened WalkInvariant
  import opened StreamTheorems

  // ---- protobuf lengths ------------------------------------------------------------

  /** Bytes of a base-128 varint. */
  function Varint(n: nat): (v: nat)
    ensures v >= 1
  {
    if n < 128 then 1 else 1 + Varint(n / 128)
  }

  lemma VarintLinear(n: nat)
    ensures 128 * Varint(n) <= 128 + n
  {
  }

  lemma {:induction false} VarintMonotone(n: nat, m: nat)
    requires n <= m
    ensures Varint(n) <= Varint(m)
  {
    if n < 128 {
    } else {
      VarintMonotone(n / 128, m / 128);
    }
  }

  /** `k` bytes are enough below 128^k, and not from there on. */
  lemma {:induction false} VarintWidth(n: nat, k: nat)
    requires k >= 1
    ensures n < Pow128(k) <==> Varint(n) <= k
  {
    if k == 1 {
      assert Pow128(1) == 128 * Pow128(0);
    } else if n < 128 {
      assert Pow128(k) == 128 * Pow128(k - 1);
    } else {
      VarintWidth(n / 128, k - 1);
    }
  }

  function Pow128(k: nat): (p: nat)
    ensures p >= 1
  {
    if k == 0 then 1 else 128 * Pow128(k - 1)
  }

  /** A length-delimited field of one-byte tag. */
  function Delimited(len: nat): nat {
    1 + Varint(len) + len
  }

  const U32_LIMIT := 0x1_0000_0000

  /** An integer as its 64-bit two's complement, which is what a varint holds. */
  function Unsigned64(i: int): nat {
    i % (U64_MAX + 1)
  }

  function DateTimeLen(bits: nat): nat {
    (if bits == 0 then 0 else 9) + 2 + 2
  }

  function ValueLen(value: Value): nat {
    match value
    case Empty => Delimited(0)
    case Int(i) => 1 + Varint(Unsigned64(i))
    case Float(_) => 1 + 8
    case Str(s) => Delimited(|s|)
    case Shared(s) => Delimited(|s|)
    case Bool(_) => 1 + 1
    case DateTime(bits) => Delimited(DateTimeLen(bits))
    case DateTimeIso(s) => Delimited(|s|)
    case DurationIso(s) => Delimited(|s|)
    case Error(code) => 1 + Varint(code % U32_LIMIT)
    case SharedId(id) => 1 + Varint(id % U32_LIMIT)
  }

  function CellLen(cell: CellData): nat {
    ValueLen(cell.value)
    + (if cell.formula.Some? then Delimited(|cell.formula.value|) else 0)
    + (if cell.styleId.Some? then 1 + Varint(cell.styleId.value % U32_LIMIT) else 0)
  }

  function ValuesLen(values: seq<CellData>): nat {
    Sum((cell: CellData) => Delimited(CellLen(cell)), values)
  }

  function RowLen(row: Row): nat {
    (if row.index == 0 then 0 else 1 + Varint(row.index)) + ValuesLen(row.values)
  }

  function RowsLen(rows: seq<Row>): nat {
    Sum((row: Row) => Delimited(RowLen(row)), rows)
  }

  /** The first id of a chunk, which is left out when it is 0. */
  function IdLen(firstId: nat): nat {
    if firstId % U32_LIMIT == 0 then 0 else 1 + Varint(firstId % U32_LIMIT)
  }

  function EntriesLen(entries: seq<Bytes>): nat {
    Sum((s: Bytes) => Delimited(|s|), entries)
  }

  /** The message that carries rows or table entries. */
  function MessageLen(e: Event): nat
    requires e.Rows? || e.OneRow? || e.StringTable?
  {
    match e
    case Rows(rows) => Delimited(RowsLen(rows))
    case OneRow(row) => Delimited(RowLen(row))
    case StringTable(firstId, entries) => Delimited(IdLen(firstId) + EntriesLen(entries))
  }

  // ---- the estimate covers half the encoding ----------------------------------------

  predicate WithinEstimate(len: nat, est: nat) {
    len <= 2 * est - 10 && 128 * len <= 129 * est + 128
  }

  lemma TextCovered(n: nat)
    ensures WithinEstimate(Delimited(n), 6 + n)
  {
    VarintLinear(n);
    hide Varint;
  }

  lemma ValueCovered(value: Value)
    ensures WithinEstimate(ValueLen(value), ApproxCellBytes(CellData(value, None, None)))
  {
    hide WithinEstimate, Delimited, Varint, Unsigned64;
    match value
    case Int(i) => IntCovered(i);
    case Error(code) => NumberCovered(code);
    case SharedId(id) => NumberCovered(id);
    case Str(s) => TextCovered(|s|);
    case Shared(s) => TextCovered(|s|);
    case DateTimeIso(s) => TextCovered(|s|);
    case DurationIso(s) => TextCovered(|s|);
    case _ => FixedCovered(value);
  }

  lemma IntCovered(i: int)
    ensures WithinEstimate(1 + Varint(Unsigned64(i)), 14)
  {
    VarintWidth(Unsigned64(i), 10);
    hide Varint;
  }

  lemma NumberCovered(n: nat)
    ensures WithinEstimate(1 + Varint(n % U32_LIMIT), 14)
  {
    VarintWidth(n % U32_LIMIT, 5);
    hide Varint;
  }

  lemma FixedCovered(value: Value)
    requires value.Empty? || value.Float? || value.Bool? || value.DateTime?
    ensures WithinEstimate(ValueLen(value), 14)
  {
  }

  /** A cell of the message: within twice its estimate, with room for its share
      of what frames the row. */
  predicate Framed(len: nat, est: nat) {
    len <= 2 * est - 8 && (len + 6 < 128 || len + 6 <= 128 * (2 * est - 8 - len))
  }

  lemma CellCovered(cell: CellData)
    ensures Framed(Delimited(CellLen(cell)), ApproxCellBytes(cell))
  {
    ValueCovered(cell.value);
    if cell.styleId.Some? { VarintWidth(cell.styleId.value % U32_LIMIT, 5); }
    if cell.formula.Some? { VarintLinear(|cell.formula.value|); }
    VarintLinear(CellLen(cell));
  }

  lemma {:induction false} ValuesCovered(values: seq<CellData>)
    ensures var len, est, n := ValuesLen(values), ApproxRowBytes(values), |values|;
            && len <= 2 * est - 8 * n
            && len + 6 * n <= 128 * (2 * est - 4 * n - len)
            && (n == 1 ==> Framed(len, est))
  {
    if values == [] {
    } else {
      var n := |values| - 1;
      ValuesCovered(values[..n]);
      CellCovered(values[n]);
      if n == 0 {
        assert values[..0] == [];
      }
    }
  }

  /** A row of at least one cell is encoded in at most twice its estimate. */
  lemma RowCovered(row: Row)
    requires row.values != []
    ensures Delimited(RowLen(row)) <= 2 * ApproxRowBytes(row.values)
  {
    ValuesCovered(row.values);
    VarintWidth(row.index, 5);
    VarintLinear(RowLen(row));
    hide ValuesLen, ApproxRowBytes;
  }

  lemma {:induction false} RowsCovered(rows: seq<Row>)
    requires AllTidy(rows)
    ensures RowsLen(rows) <= 2 * ApproxBytes(rows)
  {
    if rows == [] {
    } else {
      RowsCovered(rows[..|rows| - 1]);
      RowCovered(rows[|rows| - 1]);
    }
  }

  /** The message of a batch is at most that of twice its estimate in bytes. */
  lemma {:induction false} MessageCovered(rows: seq<Row>)
    requires AllTidy(rows)
    ensures MessageLen(Rows(rows)) <= Delimited(2 * ApproxBytes(rows))
  {
    RowsCovered(rows);
    VarintMonotone(RowsLen(rows), 2 * ApproxBytes(rows));
  }

  lemma SingleCovered(row: Row)
    requires Tidy(row.values)
    ensures MessageLen(OneRow(row)) <= 2 * ApproxRowBytes(row.values)
  {
    RowCovered(row);
  }

  /** Nor is a cell estimated at more than 20 bytes past its encoding, so a batch
      that is sent for its bytes is not sent early by more than that a cell. */
  lemma {:induction false} EstimateIsClose(values: seq<CellData>)
    ensures ApproxRowBytes(values) <= ValuesLen(values) + 18 * |values|
  {
    if values == [] {
    } else {
      var n := |values| - 1;
      EstimateIsClose(values[..n]);
      CellIsClose(values[n]);
      hide ApproxCellBytes, CellLen;
    }
  }

  lemma CellIsClose(cell: CellData)
    ensures ApproxCellBytes(cell) <= CellLen(cell) + 20
  {
  }

  // ---- what is queued, and what is sent ------------------------------------------------

  lemma EmptyIsCheapest(cell: CellData)
    requires !Carries(cell)
    ensures ApproxCellBytes(EMPTY_CELL) <= ApproxCellBytes(cell)
  {
  }

  lemma RowBytesLast(values: seq<CellData>)
    requires values != []
    ensures ApproxRowBytes(values) == ApproxRowBytes(values[..|values| - 1]) + ApproxCellBytes(values[|values| - 1])
  {
  }

  /** A merge costs no more than the two rows it folds. */
  lemma {:induction false} MergeBytes(into: seq<CellData>, from: seq<CellData>)
    ensures ApproxRowBytes(Merge(into, from)) <= ApproxRowBytes(into) + ApproxRowBytes(from)
    decreases Max(|into|, |from|)
  {
    var merged := Merge(into, from);
    if merged == [] {
    } else {
      var n := |merged| - 1;
      var into', from' := if n < |into| then into[..n] else into, if n < |from| then from[..n] else from;
      MergeBytes(into', from');
      assert merged[..n] == Merge(into', from');
      RowBytesLast(merged);
      if n < |into| { RowBytesLast(into); }
      if n < |from| { RowBytesLast(from); }
      hide ApproxRowBytes, ApproxCellBytes;
      if n < |from| && !Carries(from[n]) { EmptyIsCheapest(from[n]); }
    }
  }

  lemma EnqueueBytes(rows: seq<Row>, row: Row)
    ensures ApproxBytes(Enqueue(rows, row)) <= ApproxBytes(rows) + ApproxRowBytes(row.values)
  {
    ApproxBytesAppend(rows, row);
    var found := FindRow(rows, row.index);
    if found.Some? {
      var k := found.value;
      var merged := Row(row.index, Merge(rows[k].values, row.values));
      MergeBytes(rows[k].values, row.values);
      SumUpdate((row: Row) => ApproxRowBytes(row.values), rows, k, merged);
    }
  }

  lemma {:induction false} InsertBytes(rows: seq<Row>, row: Row, tie: (Row, Row) -> bool)
    ensures ApproxBytes(Insert(rows, row, tie)) == ApproxBytes(rows) + ApproxRowBytes(row.values)
  {
    hide ApproxBytes, ApproxRowBytes;
    ApproxBytesAppend(rows, row);
    if rows == [] {
      assert [] + [row] == [row];
    } else {
      var prefix, last := rows[..|rows| - 1], rows[|rows| - 1];
      InsertBytes(prefix, row, tie);
      ApproxBytesAppend(Insert(prefix, row, tie), last);
      ApproxBytesAppend(prefix, last);
      assert prefix + [last] == rows;
    }
  }

  lemma {:induction false} SortBytes(rows: seq<Row>, tie: (Row, Row) -> bool)
    ensures ApproxBytes(SortRows(rows, tie)) == ApproxBytes(rows)
  {
    if rows == [] {
    } else {
      var prefix, last := rows[..|rows| - 1], rows[|rows| - 1];
      SortBytes(prefix, tie);
      InsertBytes(SortRows(prefix, tie), last, tie);
    }
  }

  /** Within these rows and this estimate. */
  predicate EventWithin(e: Event, rows: nat, bytes: nat) {
    match e
    case Rows(batch) => |batch| <= rows && ApproxBytes(batch) <= bytes
    case OneRow(row) => ApproxRowBytes(row.values) <= bytes
    case _ => true
  }

  predicate AllWithin(events: seq<Event>, rows: nat, bytes: nat) {
    forall k :: 0 <= k < |events| ==> EventWithin(events[k], rows, bytes)
  }

  lemma RowWithin(rows: seq<Row>, k: nat)
    requires k < |rows|
    ensures ApproxRowBytes(rows[k].values) <= ApproxBytes(rows)
  {
    SumAtLeast((row: Row) => ApproxRowBytes(row.values), rows, k);
  }

  lemma SendRunWithin(cfg: Config, run: seq<Row>, next: Option<nat>, rows: nat, bytes: nat)
    requires |run| <= rows && ApproxBytes(run) <= bytes
    ensures AllWithin(SendRun(cfg, run, next), rows, bytes)
  {
    if run != [] && cfg.single {
      forall k | 0 <= k < |run|
        ensures EventWithin(Carried(cfg, run)[k], rows, bytes)
      {
        RowWithin(run, k);
      }
    }
  }

  lemma {:induction false} FlushWithin(cfg: Config, run: seq<Row>, rest: seq<Row>, next: Option<nat>,
                                       rows: nat, bytes: nat)
    requires |run| + |rest| <= rows && ApproxBytes(run) + ApproxBytes(rest) <= bytes
    ensures AllWithin(FlushFrom(cfg, run, rest, next), rows, bytes)
    decreases |rest|
  {
    hide EventWithin, SendRun;
    SendRunWithin(cfg, run, next, rows, bytes);
    if rest == [] {
    } else {
      ApproxBytesAppend([], rest[0]);
      assert [] + [rest[0]] == [rest[0]];
      ApproxBytesAppend(run, rest[0]);
      BytesHead(rest);
      hide ApproxBytes, ApproxRowBytes;
      if run != [] && rest[0].index != run[|run| - 1].index + 1 {
        FlushWithin(cfg, [rest[0]], rest[1..], NextAfter(run, next), rows, bytes);
      } else {
        FlushWithin(cfg, run + [rest[0]], rest[1..], next, rows, bytes);
      }
    }
  }

  lemma BytesHead(rows: seq<Row>)
    requires rows != []
    ensures ApproxBytes(rows) == ApproxRowBytes(rows[0].values) + ApproxBytes(rows[1..])
    ensures ApproxBytes([]) == 0
  {
    var f := (row: Row) => ApproxRowBytes(row.values);
    assert rows == [rows[0]] + rows[1..];
    SumAppend(f, [rows[0]], rows[1..]);
    SumOne(f, rows[0]);
  }

  // ---- every run ---------------------------------------------------------------------------

  /** Between pushes the queue is short of both of its bounds. */
  predicate Roomy(cfg: Config, b: Batcher) {
    |b.rows| < cfg.cap && ApproxBytes(b.rows) < MAX_BATCH_BYTES
  }

  lemma ChunksWithin(pending: seq<Bytes>, nextId: nat, rows: nat, bytes: nat)
    requires |pending| <= nextId
    ensures AllWithin(Chunks(pending, nextId), rows, bytes)
    decreases |pending|
  {
    if pending == [] {
    } else {
      ChunkMoves(pending);
      ChunksWithin(pending[ChunkEnd(pending, 0, 0)..], nextId, rows, bytes);
    }
  }

  lemma FlushSmall(cfg: Config, b: Batcher, rows: nat, bytes: nat)
    requires ValidTable(b.table) && |b.rows| <= rows && ApproxBytes(b.rows) <= bytes
    ensures AllWithin(Flush(cfg, b).1, rows, bytes)
    ensures 0 < cfg.cap ==> Roomy(cfg, Flush(cfg, b).0)
  {
    SortBytes(b.rows, cfg.tie);
    if b.rows != [] {
      FlushWithin(cfg, [], SortRows(b.rows, cfg.tie), b.nextExpected, rows, bytes);
      if b.table.Some? {
        ChunksWithin(b.table.value.pending, b.table.value.nextId, rows, bytes);
      }
    }
  }

  lemma QueuedSmall(b: Batcher, row: Row, cap: nat, widest: nat)
    requires |b.rows| < cap && ApproxBytes(b.rows) < MAX_BATCH_BYTES && ApproxRowBytes(row.values) <= widest
    ensures |Queued(b, row).rows| <= cap && ApproxBytes(Queued(b, row).rows) <= MAX_BATCH_BYTES + widest - 1
    ensures Queued(b, row).table == b.table
  {
    assert |Enqueue(b.rows, row)| <= |b.rows| + 1;
    hide Enqueue, ApproxBytes, ApproxRowBytes;
    EnqueueBytes(b.rows, row);
  }

  /** One push: every batch it sends has at most `cap` rows and an estimate
      below the byte cap plus the pushed row's own. */
  lemma PushSmall(cfg: Config, b: Batcher, row: Row, widest: nat)
    requires ValidTable(b.table) && Roomy(cfg, b) && ApproxRowBytes(row.values) <= widest
    ensures AllWithin(Push(cfg, b, row).1, cfg.cap, MAX_BATCH_BYTES + widest - 1)
    ensures Roomy(cfg, Push(cfg, b, row).0)
  {
    hide Flush, Enqueue, ApproxBytes, ApproxRowBytes, Lingered, EventWithin;
    QueuedSmall(b, row, cfg.cap, widest);
    FlushSmall(cfg, Queued(b, row), cfg.cap, MAX_BATCH_BYTES + widest - 1);
  }

  /** The row a kept cell makes the walk push, if any. */
  function PushedBy(w: Walk, cell: Cell): Option<Row> {
    if Late(w, cell) then (if Accepts(w.batcher, cell.row) then Some(LateRow(cell)) else None)
    else if w.open && cell.row != w.currentRow && Accepts(w.batcher, w.currentRow)
    then Some(Row(w.currentRow, w.values))
    else None
  }

  /** No row the run pushes, and not the one under construction, is estimated
      above `widest`. */
  predicate NoneWider(s: Setup, arrivals: seq<Arrival>, widest: nat) {
    && ApproxRowBytes(Walked(s, arrivals).values) <= widest
    && (arrivals != [] ==>
        var before, a := arrivals[..|arrivals| - 1], arrivals[|arrivals| - 1];
        var pushed := PushedBy(Walked(s, before), NextCell(s, before, a));
        && NoneWider(s, before, widest)
        && (pushed.Some? ==> ApproxRowBytes(pushed.value.values) <= widest))
  }

  lemma WithinAppend(a: seq<Event>, b: seq<Event>, rows: nat, bytes: nat)
    requires AllWithin(a, rows, bytes) && AllWithin(b, rows, bytes)
    ensures AllWithin(a + b, rows, bytes)
  {
  }

  lemma TakeSmall(cfg: Config, w: Walk, cell: Cell, widest: nat)
    requires ValidTable(w.batcher.table) && Roomy(cfg, w.batcher)
    requires AllWithin(w.events, cfg.cap, MAX_BATCH_BYTES + widest - 1) && widest > 0
    requires PushedBy(w, cell).Some? ==> ApproxRowBytes(PushedBy(w, cell).value.values) <= widest
    ensures var w' := Take(cfg, w, cell);
            Roomy(cfg, w'.batcher) && AllWithin(w'.events, cfg.cap, MAX_BATCH_BYTES + widest - 1)
  {
    hide Push, Roomy, AllWithin, ApproxRowBytes, Placed;
    var pushed := PushedBy(w, cell);
    if pushed.Some? {
      PushSmall(cfg, w.batcher, pushed.value, widest);
      WithinAppend(w.events, Push(cfg, w.batcher, pushed.value).1, cfg.cap, MAX_BATCH_BYTES + widest - 1);
    } else {
      AbortSmall(w.events, Unsorted(cell.row, cell.col), cfg.cap, MAX_BATCH_BYTES + widest - 1);
      AbortSmall(w.events, Unsorted(w.currentRow, 0), cfg.cap, MAX_BATCH_BYTES + widest - 1);
    }
  }

  lemma AbortSmall(events: seq<Event>, e: Event, rows: nat, bytes: nat)
    requires AllWithin(events, rows, bytes) && (e.Unsorted? || e.ReadFailed?)
    ensures AllWithin(events + [e], rows, bytes)
  {
  }

  lemma StepSmall(s: Setup, before: seq<Arrival>, a: Arrival, widest: nat)
    requires widest > 0
    requires var w := Walked(s, before);
             Roomy(s.cfg, w.batcher) && AllWithin(w.events, s.cfg.cap, MAX_BATCH_BYTES + widest - 1)
    requires var pushed := PushedBy(Walked(s, before), NextCell(s, before, a));
             pushed.Some? ==> ApproxRowBytes(pushed.value.values) <= widest
    ensures var w := Walked(s, before + [a]);
            Roomy(s.cfg, w.batcher) && AllWithin(w.events, s.cfg.cap, MAX_BATCH_BYTES + widest - 1)
  {
    WalkedStep(s, before, a);
    assert ValidTable(Ready(s, before, a).batcher.table);
    hide Walked, Take, AllWithin, ApproxRowBytes, ApproxBytes, Convert, Carries;
    TakeSmall(s.cfg, Ready(s, before, a), NextCell(s, before, a), widest);
  }

  lemma {:induction false} RunSmall(s: Setup, arrivals: seq<Arrival>, widest: nat)
    requires 0 < s.cfg.cap && NoneWider(s, arrivals, widest) && widest > 0
    ensures var w := Walked(s, arrivals);
            Roomy(s.cfg, w.batcher) && AllWithin(w.events, s.cfg.cap, MAX_BATCH_BYTES + widest - 1)
  {
    if arrivals == [] {
    } else {
      var before, a := arrivals[..|arrivals| - 1], arrivals[|arrivals| - 1];
      assert before + [a] == arrivals;
      hide Walked, AllWithin, ApproxRowBytes, Roomy, PushedBy, NextCell;
      RunSmall(s, before, widest);
      StepSmall(s, before, a, widest);
    }
  }

  lemma FinishSmall(cfg: Config, w: Walk, widest: nat)
    requires ValidTable(w.batcher.table) && Roomy(cfg, w.batcher) && widest > 0
    requires ApproxRowBytes(w.values) <= widest
    requires AllWithin(w.events, cfg.cap, MAX_BATCH_BYTES + widest - 1)
    ensures AllWithin(Finish(cfg, w).events, cfg.cap, MAX_BATCH_BYTES + widest - 1)
  {
    var bytes := MAX_BATCH_BYTES + widest - 1;
    var row := Row(w.currentRow, w.values);
    hide Push, Flush, AllWithin, ApproxRowBytes;
    AbortSmall(w.events, Unsorted(w.currentRow, 0), cfg.cap, bytes);
    PushSmall(cfg, w.batcher, row, widest);
    WithinAppend(w.events, Push(cfg, w.batcher, row).1, cfg.cap, bytes);
    var w' := if w.open then Pushed(cfg, w, row) else w;
    FlushSmall(cfg, w'.batcher, cfg.cap, bytes);
    WithinAppend(w'.events, Flush(cfg, w'.batcher).1, cfg.cap, bytes);
  }

  /** Every stream, however it ends: each batch has at most `cap` rows and an
      estimate below the byte cap plus the widest row's. */
  lemma {:induction false} BatchesAreSmall(s: Setup, arrivals: seq<Arrival>, readError: bool, widest: nat)
    requires 0 < s.cfg.cap && NoneWider(s, arrivals, widest) && widest > 0
    ensures AllWithin(Stream(s, arrivals, readError).events, s.cfg.cap, MAX_BATCH_BYTES + widest - 1)
  {
    RunSmall(s, arrivals, widest);
    var w := Walked(s, arrivals);
    AbortSmall(w.events, ReadFailed, s.cfg.cap, MAX_BATCH_BYTES + widest - 1);
    FinishSmall(s.cfg, w, widest);
    hide Finish, AllWithin, Walked;
  }

  /** So when no row is estimated above a quarter frame less three bytes, no
      message that carries rows is past the frame limit. */
  lemma {:induction false} MessagesFitTheFrame(s: Setup, arrivals: seq<Arrival>, readError: bool, k: nat)
    requires 0 < s.cfg.cap && NoneWider(s, arrivals, MAX_BATCH_BYTES - 3)
    requires var e := Stream(s, arrivals, readError).events; k < |e| && (e[k].Rows? || e[k].OneRow?)
    ensures MessageLen(Stream(s, arrivals, readError).events[k]) <= MAX_FRAME_BYTES
  {
    var events := Stream(s, arrivals, readError).events;
    BatchesAreSmall(s, arrivals, readError, MAX_BATCH_BYTES - 3);
    assert EventWithin(events[k], s.cfg.cap, MAX_BATCH_BYTES + (MAX_BATCH_BYTES - 3) - 1);
    StreamTidy(s, arrivals, readError);
    SentTidy(events, k);
    hide Stream, NoneWider;
    if events[k].Rows? {
      MessageCovered(events[k].rows);
      var most := 2 * ApproxBytes(events[k].rows);
      VarintWidth(most, 4);
    } else {
      assert EventRows(events[k])[0] == events[k].row;
      SingleCovered(events[k].row);
    }
  }

  lemma StreamTidy(s: Setup, arrivals: seq<Arrival>, readError: bool)
    ensures AllTidy(Sent(Stream(s, arrivals, readError).events))
  {
    RunInv(s, arrivals);
    var w := Walked(s, arrivals);
    if readError {
      if w.status.Running? { AbortWire(s.header, w.batcher, w.events, ReadFailed); }
    } else if w.status.Running? {
      FinishInv(s.cfg, s.header, w);
    }
  }

  lemma {:induction false} SentTidy(events: seq<Event>, k: nat)
    requires k < |events| && AllTidy(Sent(events))
    ensures AllTidy(EventRows(events[k]))
  {
    var n := |events| - 1;
    var rows := Sent(events);
    assert rows == Sent(events[..n]) + EventRows(events[n]);
    if k == n {
      assert forall j :: 0 <= j < |EventRows(events[n])| ==> EventRows(events[n])[j] == rows[|Sent(events[..n])| + j];
    } else {
      assert forall j :: 0 <= j < |Sent(events[..n])| ==> Sent(events[..n])[j] == rows[j];
      SentTidy(events[..n], k);
    }
  }
}
