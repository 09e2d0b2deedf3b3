/** How the row cap bounds what order a stream can repair (`src/service.rs`):
    a multiple of a cap repairs whatever the cap does, and a larger cap that
    is no multiple of it may not. */
module RepairWindow {
  import opened Sequences
  import opened Contract
  import opened Batching
  import opened BatchingFacts
  import opened BatcherInvariant
  import opened Walking
  import opened StreamTheorems
  import opened Revisiting
  import opened WholeRuns

  /** The clock never runs out. */
  ghost predicate NeverExpires(cfg: Config) {
    forall k: nat :: !cfg.expired(k)
  }

  /** The row the next cell pushes, if it pushes one. */
  function RowPushed(w: Walk, cell: Cell): Option<Row> {
    if w.open && cell.row < w.currentRow then Some(LateRow(cell))
    else if w.open && cell.row != w.currentRow then Some(Row(w.currentRow, w.values))
    else None
  }

  /** No push of a run fills a batch by its bytes. */
  predicate NoByteFlush(s: Setup, arrivals: seq<Arrival>) {
    arrivals != [] ==>
      var before := arrivals[..|arrivals| - 1];
      var w := Walked(s, before);
      var row := RowPushed(w, NextCell(s, before, arrivals[|arrivals| - 1]));
      && NoByteFlush(s, before)
      && (row.Some? ==> ApproxBytes(Enqueue(w.batcher.rows, row.value)) < MAX_BATCH_BYTES)
  }

  // ---- the queue of the larger cap holds the smaller cap's ----

  ghost predicate AllUpTo(rows: seq<Row>, high: Option<nat>) {
    forall k :: 0 <= k < |rows| ==> high.Some? && rows[k].index <= high.value
  }

  predicate MultipleOf(n: nat, a: nat)
    requires a > 0
  {
    n == 0 || (n >= a && MultipleOf(n - a, a))
  }

  /** The larger cap's queue is some whole batches of the smaller cap's, which
      the smaller cap has already sent, and then the smaller cap's queue. */
  ghost predicate Ahead(a: nat, b: nat, held: seq<Row>, v: Batcher, w: Batcher) {
    && a > 0 && b > 0 && MultipleOf(b, a)
    && w.rows == held + v.rows
    && MultipleOf(|held|, a) && |held| < b && |v.rows| < a
    && AllUpTo(held, v.highestSent)
    && (w.highestSent.Some? ==> v.highestSent.Some? && w.highestSent.value <= v.highestSent.value)
    && SameIds(v.table, w.table)
  }

  lemma {:induction false} FindAfter(held: seq<Row>, rows: seq<Row>, index: nat)
    requires forall k :: 0 <= k < |held| ==> held[k].index != index
    ensures FindRow(held + rows, index) ==
            match FindRow(rows, index) case None => None case Some(k) => Some(|held| + k)
  {
    if rows == [] {
      assert held + rows == held;
      assert FindRow(held, index).None?;
    } else {
      assert (held + rows)[..|held + rows| - 1] == held + rows[..|rows| - 1];
      FindAfter(held, rows[..|rows| - 1], index);
    }
  }

  /** A row past everything held back is queued among the rest. */
  lemma EnqueueAfter(held: seq<Row>, rows: seq<Row>, row: Row)
    requires forall k :: 0 <= k < |held| ==> held[k].index < row.index
    ensures Enqueue(held + rows, row) == held + Enqueue(rows, row)
  {
    hide FindRow, Merge;
    FindAfter(held, rows, row.index);
    if rows == [] {
      assert held + rows == held;
    } else if row.index > rows[|rows| - 1].index || FindRow(rows, row.index).None? {
      assert held + rows + [row] == held + (rows + [row]);
    } else {
      var k := FindRow(rows, row.index).value;
      var merged := Row(row.index, Merge(rows[k].values, row.values));
      assert (held + rows)[|held| + k := merged] == held + rows[k := merged];
    }
  }

  /** Queueing adds a row at most. */
  lemma EnqueueGrows(rows: seq<Row>, row: Row)
    ensures |rows| <= |Enqueue(rows, row)| <= |rows| + 1
  {
  }

  lemma {:induction false} LessBytes(held: seq<Row>, rows: seq<Row>)
    ensures ApproxBytes(rows) <= ApproxBytes(held + rows)
  {
    SumAppend((row: Row) => ApproxRowBytes(row.values), held, rows);
  }

  // ---- one push under both caps ----

  /** A push that fills a batch by its rows only. */
  lemma PushByCap(cfg: Config, q: Batcher, row: Row)
    requires ValidTable(q.table) && NeverExpires(cfg) && ApproxBytes(Enqueue(q.rows, row)) < MAX_BATCH_BYTES
    ensures var rows := Enqueue(q.rows, row);
            var b' := q.(rows := rows, pushes := q.pushes + 1);
            Push(cfg, q, row).0 == if |rows| >= cfg.cap then Flush(cfg, b').0 else b'
  {
    hide Flush, Enqueue;
  }

  lemma {:induction false} SortedLast(rows: seq<Row>, tie: (Row, Row) -> bool)
    requires rows != []
    ensures var sorted := SortRows(rows, tie);
            && sorted != []
            && (forall k :: 0 <= k < |rows| ==> rows[k].index <= sorted[|sorted| - 1].index)
            && HasIndex(rows, sorted[|sorted| - 1].index)
  {
    SortedFacts(rows, tie);
    hide SortRows;
    var sorted := SortRows(rows, tie);
    forall k | 0 <= k < |rows|
      ensures rows[k].index <= sorted[|sorted| - 1].index
    {
      IndexOf(rows, k);
      var j :| 0 <= j < |sorted| && sorted[j].index == rows[k].index;
    }
    IndexOf(sorted, |sorted| - 1);
  }

  lemma {:induction false} NextMultiple(a: nat, b: nat, n: nat)
    requires a > 0 && MultipleOf(n, a) && MultipleOf(b, a) && n < b
    ensures n + a <= b && MultipleOf(n + a, a)
  {
    if n == 0 {
    } else {
      NextMultiple(a, b - a, n - a);
    }
  }

  lemma {:induction false} Times(k: nat, a: nat)
    requires a > 0
    ensures MultipleOf(k * a, a)
  {
    if k == 0 {
    } else {
      Times(k - 1, a);
      assert k * a == (k - 1) * a + a;
    }
  }

  /** What the larger cap holds back once the smaller one has taken a row. */
  function HeldAfter(a: nat, b: nat, held: seq<Row>, queued: seq<Row>): seq<Row> {
    if |queued| < a then held else if |held| + |queued| < b then held + queued else []
  }

  lemma HeldSizes(a: nat, b: nat, held: seq<Row>, before: nat, queued: seq<Row>)
    requires a > 0 && MultipleOf(b, a) && MultipleOf(|held|, a) && |held| < b
    requires before < a && before <= |queued| <= before + 1
    ensures var after := HeldAfter(a, b, held, queued);
            && MultipleOf(|after|, a) && |after| < b
            && (|queued| >= a ==> |queued| == a)
            && (|held| + |queued| >= b <==> |queued| >= a && after == [])
  {
    NextMultiple(a, b, |held|);
  }

  /** One row pushed under both caps. */
  lemma {:induction false} PushAhead(cfgA: Config, cfgB: Config, held: seq<Row>, v: Batcher, w: Batcher, row: Row)
    requires ValidTable(v.table) && ValidTable(w.table)
    requires NeverExpires(cfgA) && NeverExpires(cfgB) && Ahead(cfgA.cap, cfgB.cap, held, v, w)
    requires Accepts(v, row.index) && ApproxBytes(Enqueue(w.rows, row)) < MAX_BATCH_BYTES
    ensures Ahead(cfgA.cap, cfgB.cap, HeldAfter(cfgA.cap, cfgB.cap, held, Enqueue(v.rows, row)),
                  Push(cfgA, v, row).0, Push(cfgB, w, row).0)
  {
    hide Enqueue, Push, SortRows, ApproxBytes, SameIds;
    var a, b := cfgA.cap, cfgB.cap;
    var q := Enqueue(v.rows, row);
    EnqueueAfter(held, v.rows, row);
    EnqueueGrows(v.rows, row);
    HeldSizes(a, b, held, |v.rows|, q);
    LessBytes(held, q);
    PushByCap(cfgA, v, row);
    PushByCap(cfgB, w, row);
    SameIdsAfter(cfgA, cfgB, v, w, row);
    if |q| >= a {
      var v' := v.(rows := q, pushes := v.pushes + 1);
      var w' := w.(rows := held + q, pushes := w.pushes + 1);
      RowIsQueued(v.rows, row);
      SortedLast(q, cfgA.tie);
      SortedLast(held + q, cfgB.tie);
      FlushedHigh(cfgA, v');
      FlushedHigh(cfgB, w');
    }
  }

  lemma RowIsQueued(rows: seq<Row>, row: Row)
    ensures HasIndex(Enqueue(rows, row), row.index)
  {
    EnqueueIndices(rows, row);
  }

  lemma FlushedHigh(cfg: Config, q: Batcher)
    requires ValidTable(q.table) && q.rows != []
    ensures Flush(cfg, q).0.rows == []
    ensures var sorted := SortRows(q.rows, cfg.tie);
            sorted != [] && Flush(cfg, q).0.highestSent == Some(sorted[|sorted| - 1].index)
  {
    hide FlushFrom;
  }

  lemma SameIdsAfter(cfgA: Config, cfgB: Config, v: Batcher, w: Batcher, row: Row)
    requires ValidTable(v.table) && ValidTable(w.table) && SameIds(v.table, w.table)
    ensures SameIds(Push(cfgA, v, row).0.table, Push(cfgB, w, row).0.table)
  {
    hide Push;
    PushKeepsIds(cfgA, v, row);
    PushKeepsIds(cfgB, w, row);
  }

  // ---- whole runs under both caps ----

  /** Two walks over the same cells, the second with the larger cap. */
  ghost predicate WalksAhead(a: nat, b: nat, held: seq<Row>, v: Walk, w: Walk) {
    && v.status.Running? && w.status.Running?
    && v.open == w.open && v.currentRow == w.currentRow && v.values == w.values
    && Ahead(a, b, held, v.batcher, w.batcher)
  }

  lemma AcceptsToo(a: nat, b: nat, held: seq<Row>, v: Batcher, w: Batcher, row: nat)
    requires Ahead(a, b, held, v, w) && Accepts(v, row)
    ensures Accepts(w, row)
  {
  }

  lemma TakeAhead(cfgA: Config, cfgB: Config, held: seq<Row>, v: Walk, w: Walk, cell: Cell) returns (held': seq<Row>)
    requires ValidTable(v.batcher.table) && ValidTable(w.batcher.table)
    requires NeverExpires(cfgA) && NeverExpires(cfgB) && WalksAhead(cfgA.cap, cfgB.cap, held, v, w)
    requires RowPushed(w, cell).Some? ==>
               ApproxBytes(Enqueue(w.batcher.rows, RowPushed(w, cell).value)) < MAX_BATCH_BYTES
    requires Take(cfgA, v, cell).status.Running?
    ensures WalksAhead(cfgA.cap, cfgB.cap, held', Take(cfgA, v, cell), Take(cfgB, w, cell))
  {
    hide Ahead, Push, Enqueue, Placed, ApproxBytes;
    held' := held;
    if RowPushed(w, cell).Some? {
      var row := RowPushed(w, cell).value;
      AcceptsToo(cfgA.cap, cfgB.cap, held, v.batcher, w.batcher, row.index);
      PushAhead(cfgA, cfgB, held, v.batcher, w.batcher, row);
      held' := HeldAfter(cfgA.cap, cfgB.cap, held, Enqueue(v.batcher.rows, row));
    }
  }

  lemma TablesAhead(a: nat, b: nat, held: seq<Row>, v: Walk, w: Walk, arrival: Arrival)
    requires WalksAhead(a, b, held, v, w)
    ensures Convert(v.batcher.table, arrival).1 == Convert(w.batcher.table, arrival).1
    ensures var t, u := Convert(v.batcher.table, arrival).0, Convert(w.batcher.table, arrival).0;
            WalksAhead(a, b, held, v.(batcher := v.batcher.(table := t)), w.(batcher := w.batcher.(table := u)))
  {
    ConvertSame(v.batcher.table, w.batcher.table, arrival);
    hide Convert;
  }

  /** The same stream under a cap that is a multiple of the other. */
  ghost predicate WiderCap(s: Setup, t: Setup) {
    && t == s.(cfg := t.cfg)
    && 0 < s.cfg.cap && 0 < t.cfg.cap && MultipleOf(t.cfg.cap, s.cfg.cap)
    && NeverExpires(s.cfg) && NeverExpires(t.cfg)
  }

  lemma StepAhead(s: Setup, t: Setup, before: seq<Arrival>, arrival: Arrival, held: seq<Row>) returns (held': seq<Row>)
    requires WiderCap(s, t) && NoByteFlush(t, before + [arrival])
    requires WalksAhead(s.cfg.cap, t.cfg.cap, held, Walked(s, before), Walked(t, before))
    requires Walked(s, before + [arrival]).status.Running?
    ensures WalksAhead(s.cfg.cap, t.cfg.cap, held', Walked(s, before + [arrival]), Walked(t, before + [arrival]))
  {
    WalkedStep(s, before, arrival);
    WalkedStep(t, before, arrival);
    var v, w := Walked(s, before), Walked(t, before);
    TablesAhead(s.cfg.cap, t.cfg.cap, held, v, w, arrival);
    assert (before + [arrival])[..|before|] == before;
    var (table, cell) := Convert(v.batcher.table, arrival);
    held' := held;
    if Kept(s.header, cell) {
      SmallPush(t, before, arrival);
      hide Ahead, Push, Enqueue, Placed, ApproxBytes, Convert, NeverExpires, WalksAhead, Take;
      held' := TakeAhead(s.cfg, t.cfg, held, Ready(s, before, arrival), Ready(t, before, arrival), cell);
    }
  }

  lemma SmallPush(t: Setup, before: seq<Arrival>, arrival: Arrival)
    requires NoByteFlush(t, before + [arrival])
    ensures var row := RowPushed(Ready(t, before, arrival), NextCell(t, before, arrival));
            row.Some? ==> ApproxBytes(Enqueue(Ready(t, before, arrival).batcher.rows, row.value)) < MAX_BATCH_BYTES
    ensures NoByteFlush(t, before)
  {
    assert (before + [arrival])[..|before|] == before;
    hide Enqueue, ApproxBytes;
  }

  lemma {:induction false} RunAhead(s: Setup, t: Setup, arrivals: seq<Arrival>) returns (held: seq<Row>)
    requires WiderCap(s, t) && NoByteFlush(t, arrivals) && Walked(s, arrivals).status.Running?
    ensures WalksAhead(s.cfg.cap, t.cfg.cap, held, Walked(s, arrivals), Walked(t, arrivals))
  {
    hide Step, WalksAhead;
    if arrivals == [] {
      held := [];
      NothingAhead(s, t);
    } else {
      var before, a := arrivals[..|arrivals| - 1], arrivals[|arrivals| - 1];
      assert before + [a] == arrivals;
      SmallPush(t, before, a);
      RanBefore(s, before, a);
      held := RunAhead(s, t, before);
      held := StepAhead(s, t, before, a, held);
    }
  }

  lemma NothingAhead(s: Setup, t: Setup)
    requires WiderCap(s, t)
    ensures WalksAhead(s.cfg.cap, t.cfg.cap, [], Walked(s, []), Walked(t, []))
  {
  }

  lemma RanBefore(s: Setup, before: seq<Arrival>, a: Arrival)
    requires Walked(s, before + [a]).status.Running?
    ensures Walked(s, before).status.Running?
  {
    WalkedStep(s, before, a);
  }

  /** A multiple of a cap completes whatever the cap completes. */
  lemma {:induction false} MultiplesComplete(s: Setup, t: Setup, arrivals: seq<Arrival>)
    requires t == s.(cfg := t.cfg) && NeverExpires(s.cfg) && NeverExpires(t.cfg)
    requires 0 < s.cfg.cap && 0 < t.cfg.cap && t.cfg.cap % s.cfg.cap == 0
    requires NoByteFlush(t, arrivals) && Stream(s, arrivals, false).status.Completed?
    ensures Stream(t, arrivals, false).status.Completed?
  {
    hide WalksAhead, NoByteFlush, Finish;
    var k := t.cfg.cap / s.cfg.cap;
    Times(k, s.cfg.cap);
    assert t.cfg.cap == k * s.cfg.cap;
    CompletedRan(s, arrivals);
    var held := RunAhead(s, t, arrivals);
    StillRunning(s, t, arrivals, held);
    RunInv(t, arrivals);
    FinishInv(t.cfg, t.header, Walked(t, arrivals));
  }

  lemma StillRunning(s: Setup, t: Setup, arrivals: seq<Arrival>, held: seq<Row>)
    requires WalksAhead(s.cfg.cap, t.cfg.cap, held, Walked(s, arrivals), Walked(t, arrivals))
    ensures Walked(t, arrivals).status.Running?
  {
  }

  /** And of a sheet that revisits no row it sends the very same rows and gaps. */
  lemma {:induction false} MultiplesAgree(s: Setup, t: Setup, arrivals: seq<Arrival>)
    requires t == s.(cfg := t.cfg) && NeverExpires(s.cfg) && NeverExpires(t.cfg)
    requires 0 < s.cfg.cap && 0 < t.cfg.cap && t.cfg.cap % s.cfg.cap == 0
    requires NoByteFlush(t, arrivals) && Stream(s, arrivals, false).status.Completed?
    requires !Revisits(Cells(s, arrivals))
    ensures Stream(t, arrivals, false).status.Completed?
    ensures Sent(Stream(t, arrivals, false).events) == Sent(Stream(s, arrivals, false).events)
    ensures Items(Stream(t, arrivals, false).events) == Items(Stream(s, arrivals, false).events)
  {
    hide NoByteFlush, Finish, Walked, Revisits, AllTidy, Ascending, Latest, Shown, Itemize;
    MultiplesComplete(s, t, arrivals);
    WholeRun(s, arrivals);
    WholeRun(t, arrivals);
    RowsAreDetermined(Sent(Stream(t, arrivals, false).events), Sent(Stream(s, arrivals, false).events));
    GapsAreExact(s, arrivals, false);
    GapsAreExact(t, arrivals, false);
  }
}
