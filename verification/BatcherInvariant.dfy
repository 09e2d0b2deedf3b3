/** What every push and every flush keep: the rows on the wire, the rows in
    the queue, and what a client will have been shown of both. */
module BatcherInvariant {
  import opened Sequences
  import opened Contract
  import opened StringTables
  import opened Batching
  import opened BatchingFacts

  ghost predicate AtLeast(rows: seq<Row>, low: Option<nat>) {
    low.Some? ==> forall k :: 0 <= k < |rows| ==> low.value <= rows[k].index
  }

  ghost predicate Past(rows: seq<Row>, high: Option<nat>) {
    high.Some? ==> forall k :: 0 <= k < |rows| ==> high.value < rows[k].index
  }

  function LastIndex(rows: seq<Row>): Option<nat> {
    if rows == [] then None else Some(rows[|rows| - 1].index)
  }

  /** The batcher `b` and the `events` sent so far agree: what is queued is
      still ahead of everything sent, and the row events are the contract's
      rendering of the rows sent, for a sheet starting at `start`. */
  ghost predicate Wire(start: Option<nat>, b: Batcher, events: seq<Event>) {
    var sent := Sent(events);
    && ValidTable(b.table)
    && b.highestSent == LastIndex(sent)
    && b.nextExpected == NextAfter(sent, start)
    && Past(b.rows, b.highestSent)
    && NonDescending(sent)
    && AtLeast(sent, start) && AtLeast(b.rows, start)
    && AllTidy(sent) && AllTidy(b.rows)
    && Items(events) == Itemize(sent, start)
  }

  /** No row index is queued or sent twice. */
  ghost predicate Clean(b: Batcher, events: seq<Event>) {
    Distinct(b.rows) && Ascending(Sent(events))
  }

  /** What a client is shown at (`row`, `col`) once the queue is flushed. */
  ghost function View(b: Batcher, events: seq<Event>, row: nat, col: nat): Option<CellData> {
    if b.highestSent.Some? && row <= b.highestSent.value then Shown(Sent(events), row, col)
    else Shown(b.rows, row, col)
  }

  lemma FlushSaysAll(cfg: Config, b: Batcher)
    requires ValidTable(b.table) && b.rows != []
    ensures var sorted := SortRows(b.rows, cfg.tie);
            Says(Flush(cfg, b).1, Itemize(sorted, b.nextExpected), sorted,
                 if b.table.Some? then b.table.value.pending else [])
  {
    hide FlatMap, FlushFrom, Itemize;
    var sorted := SortRows(b.rows, cfg.tie);
    FlushSays(cfg, [], sorted, b.nextExpected);
    assert [] + sorted == sorted;
    if b.table.Some? {
      var t := b.table.value;
      ChunksSay(t.pending, t.nextId);
      SaysAppend(Chunks(t.pending, t.nextId), FlushFrom(cfg, [], sorted, b.nextExpected));
    } else {
      assert [] + FlushFrom(cfg, [], sorted, b.nextExpected) == FlushFrom(cfg, [], sorted, b.nextExpected);
    }
  }

  /** What a client has after `events` and then one flush of `b`. */
  lemma FlushedEvents(cfg: Config, b: Batcher, events: seq<Event>)
    requires ValidTable(b.table) && b.rows != []
    ensures var sorted := SortRows(b.rows, cfg.tie);
            Says(events + Flush(cfg, b).1,
                 Items(events) + Itemize(sorted, b.nextExpected),
                 Sent(events) + sorted,
                 Dictionary(events) + if b.table.Some? then b.table.value.pending else [])
  {
    hide FlatMap, Itemize, Flush;
    FlushSaysAll(cfg, b);
    SaysAppend(events, Flush(cfg, b).1);
  }

  lemma SortedFacts(rows: seq<Row>, tie: (Row, Row) -> bool)
    ensures var sorted := SortRows(rows, tie);
            && NonDescending(sorted)
            && (Distinct(rows) <==> Ascending(sorted))
            && (AllTidy(rows) <==> AllTidy(sorted))
            && forall i: nat :: HasIndex(sorted, i) <==> HasIndex(rows, i)
  {
    SortSorts(rows, tie);
    SortDistinct(rows, tie);
    SameIndices(SortRows(rows, tie), rows);
  }

  lemma IndexOf(rows: seq<Row>, k: nat)
    requires k < |rows|
    ensures HasIndex(rows, rows[k].index)
  {
  }

  /** Sorting leaves the queue's bounds as they are. */
  lemma SortedBounds(rows: seq<Row>, tie: (Row, Row) -> bool, low: Option<nat>, high: Option<nat>)
    requires AtLeast(rows, low) && Past(rows, high)
    ensures AtLeast(SortRows(rows, tie), low) && Past(SortRows(rows, tie), high)
  {
    var sorted := SortRows(rows, tie);
    SortedFacts(rows, tie);
    forall k | 0 <= k < |sorted|
      ensures low.Some? ==> low.value <= sorted[k].index
      ensures high.Some? ==> high.value < sorted[k].index
    {
      IndexOf(sorted, k);
      var j :| 0 <= j < |rows| && rows[j].index == sorted[k].index;
    }
  }

  /** Sent rows followed by sorted rows past them. */
  lemma SentGrows(start: Option<nat>, sent: seq<Row>, sorted: seq<Row>)
    requires NonDescending(sent) && NonDescending(sorted) && Past(sorted, LastIndex(sent))
    requires AtLeast(sent, start) && AtLeast(sorted, start)
    requires AllTidy(sent) && AllTidy(sorted)
    ensures NonDescending(sent + sorted) && AtLeast(sent + sorted, start) && AllTidy(sent + sorted)
  {
    var all := sent + sorted;
    forall i, j | 0 <= i < j < |all|
      ensures all[i].index <= all[j].index
    {
      if i < |sent| <= j {
        assert sent[i].index <= sent[|sent| - 1].index;
      }
    }
  }

  lemma NonEmptyFlushWire(cfg: Config, start: Option<nat>, b: Batcher, events: seq<Event>)
    requires Wire(start, b, events) && b.rows != []
    ensures Wire(start, Flush(cfg, b).0, events + Flush(cfg, b).1)
  {
    hide FlatMap, Itemize, NonDescending, AllTidy, AtLeast, Past, SortRows, HasIndex, Distinct, Ascending,
      FlushFrom, Chunks;
    var sent, sorted := Sent(events), SortRows(b.rows, cfg.tie);
    FlushedEvents(cfg, b, events);
    assert NonDescending(sorted) && AllTidy(sorted) by { SortedFacts(b.rows, cfg.tie); }
    SortedBounds(b.rows, cfg.tie, start, b.highestSent);
    ItemizeAppend(sent, sorted, start);
    SentGrows(start, sent, sorted);
    NothingQueued(start, Flush(cfg, b).0.highestSent);
  }

  lemma {:induction false} FlushWire(cfg: Config, start: Option<nat>, b: Batcher, events: seq<Event>)
    requires Wire(start, b, events)
    ensures Wire(start, Flush(cfg, b).0, events + Flush(cfg, b).1)
  {
    hide Wire;
    if b.rows == [] {
      assert events + [] == events;
    } else {
      NonEmptyFlushWire(cfg, start, b, events);
    }
  }

  lemma NothingQueued(start: Option<nat>, high: Option<nat>)
    ensures AtLeast([], start) && Past([], high) && AllTidy([])
  {
  }

  lemma FlushClean(cfg: Config, start: Option<nat>, b: Batcher, events: seq<Event>)
    requires Wire(start, b, events)
    ensures Clean(Flush(cfg, b).0, events + Flush(cfg, b).1) <==> Clean(b, events)
  {
    if b.rows == [] {
      assert events + [] == events;
    } else {
      hide FlatMap, Itemize, Ascending, AllTidy, Tidy;
      var sent, sorted := Sent(events), SortRows(b.rows, cfg.tie);
      FlushedEvents(cfg, b, events);
      SortedFacts(b.rows, cfg.tie);
      SortedBounds(b.rows, cfg.tie, None, b.highestSent);
      AscendingAppend(sent, sorted);
    }
  }

  lemma AscendingAppend(a: seq<Row>, b: seq<Row>)
    requires NonDescending(a) && Past(b, LastIndex(a))
    ensures Ascending(a + b) <==> Ascending(a) && Ascending(b)
  {
    var c := a + b;
    if Ascending(c) {
      forall i, j | 0 <= i < j < |a|
        ensures a[i].index < a[j].index
      {
        assert c[i].index < c[j].index;
      }
      forall i, j | 0 <= i < j < |b|
        ensures b[i].index < b[j].index
      {
        assert c[|a| + i].index < c[|a| + j].index;
      }
    }
  }

  /** The same, on the rows: a flush moves the queue past what was sent. */
  lemma ShownAcross(sent: seq<Row>, rows: seq<Row>, tie: (Row, Row) -> bool, row: nat, col: nat)
    requires NonDescending(sent) && rows != [] && Distinct(rows) && Past(rows, LastIndex(sent))
    ensures var sorted := SortRows(rows, tie);
            (if row <= sorted[|sorted| - 1].index then Shown(sent + sorted, row, col) else None) ==
            if sent != [] && row <= sent[|sent| - 1].index then Shown(sent, row, col)
            else Shown(rows, row, col)
  {
    hide SortRows, HasIndex, Ascending, Shown, Distinct;
    var sorted := SortRows(rows, tie);
    SortedFacts(rows, tie);
    SortedBounds(rows, tie, None, LastIndex(sent));
    ShownAppend(sent, sorted, row, col);
    SortShows(rows, tie, row, col);
    if sent != [] && row <= sent[|sent| - 1].index {
      ShownAbsent(sorted, row, col);
    } else {
      ShownAbsent(sent, row, col);
      if row > sorted[|sorted| - 1].index {
        ShownAbsent(sorted, row, col);
      }
    }
  }

  lemma FlushView(cfg: Config, start: Option<nat>, b: Batcher, events: seq<Event>, row: nat, col: nat)
    requires Wire(start, b, events) && Clean(b, events)
    ensures View(Flush(cfg, b).0, events + Flush(cfg, b).1, row, col) == View(b, events, row, col)
  {
    if b.rows == [] {
      assert events + [] == events;
    } else {
      hide FlatMap, Itemize, Shown, NonDescending, Distinct, Past, AtLeast, AllTidy, Ascending;
      FlushedEvents(cfg, b, events);
      ShownAcross(Sent(events), b.rows, cfg.tie, row, col);
      NothingShown(row, col);
    }
  }

  lemma NothingShown(row: nat, col: nat)
    ensures Shown([], row, col) == None
  {
  }

  // ---- pushes -----------------------------------------------------------------

  function Queued(b: Batcher, row: Row): Batcher {
    b.(rows := Enqueue(b.rows, row), pushes := b.pushes + 1)
  }

  /** A push flushes the queue with its row in it, or leaves it queued. */
  lemma PushEither(cfg: Config, b: Batcher, row: Row)
    requires ValidTable(b.table)
    ensures Push(cfg, b, row) == Flush(cfg, Queued(b, row)) || Push(cfg, b, row) == (Queued(b, row), [])
  {
    hide Enqueue, Flush, Full, Lingered;
  }

  lemma EnqueueWire(start: Option<nat>, b: Batcher, events: seq<Event>, row: Row)
    requires Wire(start, b, events) && Accepts(b, row.index) && Tidy(row.values)
    requires start.Some? ==> start.value <= row.index
    ensures Wire(start, Queued(b, row), events)
  {
    hide FlatMap, Itemize;
  }

  lemma EnqueueClean(b: Batcher, events: seq<Event>, row: Row)
    ensures Clean(Queued(b, row), events) <==> Clean(b, events) && !BlindAppend(b.rows, row.index)
  {
    EnqueueDistinct(b.rows, row);
  }

  lemma EnqueueView(b: Batcher, events: seq<Event>, row: Row, r: nat, col: nat)
    requires Accepts(b, row.index) && Clean(b, events) && !BlindAppend(b.rows, row.index)
    ensures View(Queued(b, row), events, r, col) ==
            if r == row.index && CellAt(row.values, col).Some? then CellAt(row.values, col)
            else View(b, events, r, col)
  {
    EnqueueShows(b.rows, row, r, col);
  }

  lemma {:induction false} PushWire(cfg: Config, start: Option<nat>, b: Batcher, events: seq<Event>, row: Row)
    requires Wire(start, b, events) && Accepts(b, row.index) && Tidy(row.values)
    requires start.Some? ==> start.value <= row.index
    ensures Wire(start, Push(cfg, b, row).0, events + Push(cfg, b, row).1)
  {
    assert ValidTable(b.table);
    EnqueueWire(start, b, events, row);
    PushEither(cfg, b, row);
    hide Wire, Push, Flush, Enqueue, Tidy;
    FlushWire(cfg, start, Queued(b, row), events);
    assert events + [] == events;
  }

  /** A push keeps rows distinct, queued and sent, unless it is blind. */
  lemma {:induction false} PushClean(cfg: Config, start: Option<nat>, b: Batcher, events: seq<Event>, row: Row)
    requires Wire(start, b, events) && Accepts(b, row.index) && Tidy(row.values)
    requires start.Some? ==> start.value <= row.index
    ensures Clean(Push(cfg, b, row).0, events + Push(cfg, b, row).1) <==>
            Clean(b, events) && !BlindAppend(b.rows, row.index)
  {
    assert ValidTable(b.table);
    EnqueueWire(start, b, events, row);
    PushEither(cfg, b, row);
    hide Wire, Clean, BlindAppend, Tidy, Push, Flush, Enqueue;
    EnqueueClean(b, events, row);
    FlushClean(cfg, start, Queued(b, row), events);
    assert events + [] == events;
  }

  /** A push shows its row's cells over what was shown before. */
  lemma {:induction false} PushView(cfg: Config, start: Option<nat>, b: Batcher, events: seq<Event>,
                                    row: Row, r: nat, col: nat)
    requires Wire(start, b, events) && Accepts(b, row.index) && Tidy(row.values)
    requires start.Some? ==> start.value <= row.index
    requires Clean(b, events) && !BlindAppend(b.rows, row.index)
    ensures View(Push(cfg, b, row).0, events + Push(cfg, b, row).1, r, col) ==
            if r == row.index && CellAt(row.values, col).Some? then CellAt(row.values, col)
            else View(b, events, r, col)
  {
    assert ValidTable(b.table);
    EnqueueWire(start, b, events, row);
    PushEither(cfg, b, row);
    hide Wire, Clean, View, BlindAppend, Tidy, Push, Flush, Enqueue;
    EnqueueClean(b, events, row);
    EnqueueView(b, events, row, r, col);
    FlushView(cfg, start, Queued(b, row), events, r, col);
    assert events + [] == events;
  }
}
