/** Batches that are filled by their bytes (`src/service.rs`): then no other
    cap completes everything that a cap of two rows or more completes, not even
    a multiple of it. */
module RepairBytes {
  import opened Sequences
  import opened Contract
  import opened Batching
  import opened Walking
  import opened StreamTheorems
  import opened RepairWindow
  import opened RepairLimits

  // ---- one cap with another: the same one, or a cap of one row ----

  /** Under a cap of one row everything that was queued is already sent. */
  ghost predicate Overtaken(v: Batcher, w: Batcher) {
    && v.rows == [] && AllUpTo(w.rows, v.highestSent)
    && (w.highestSent.Some? ==> v.highestSent.Some? && w.highestSent.value <= v.highestSent.value)
  }

  ghost predicate Level(v: Batcher, w: Batcher) {
    v.rows == w.rows && v.highestSent == w.highestSent
  }

  ghost predicate Alongside(a: nat, b: nat, v: Batcher, w: Batcher) {
    && SameIds(v.table, w.table)
    && if a == b then Level(v, w) else a == 1 && Overtaken(v, w)
  }

  lemma PushLevel(cfgA: Config, cfgB: Config, v: Batcher, w: Batcher, row: Row)
    requires ValidTable(v.table) && ValidTable(w.table)
    requires NeverExpires(cfgA) && NeverExpires(cfgB) && cfgA.cap == cfgB.cap && Level(v, w)
    ensures Level(Push(cfgA, v, row).0, Push(cfgB, w, row).0)
  {
    hide Enqueue, Flush, SortRows, ApproxBytes;
    var rows := Enqueue(v.rows, row);
    if Full(cfgA, rows) {
      RowIsQueued(v.rows, row);
      SortedLast(rows, cfgA.tie);
      SortedLast(rows, cfgB.tie);
      FlushedHigh(cfgA, v.(rows := rows, pushes := v.pushes + 1));
      FlushedHigh(cfgB, w.(rows := rows, pushes := w.pushes + 1));
    }
  }

  lemma PushOvertaken(cfgA: Config, cfgB: Config, v: Batcher, w: Batcher, row: Row)
    requires ValidTable(v.table) && ValidTable(w.table)
    requires cfgA.cap == 1 && Overtaken(v, w) && Accepts(v, row.index)
    ensures Overtaken(Push(cfgA, v, row).0, Push(cfgB, w, row).0)
  {
    hide Enqueue, Flush, SortRows, ApproxBytes, Lingered;
    EnqueueFirst(row);
    SortedLast([row], cfgA.tie);
    FlushedHigh(cfgA, v.(rows := [row], pushes := v.pushes + 1));
    var rows := Enqueue(w.rows, row);
    RowIsQueued(w.rows, row);
    EnqueuedUpTo(w.rows, row, v.highestSent);
    SortedLast(rows, cfgB.tie);
    FlushedHigh(cfgB, w.(rows := rows, pushes := w.pushes + 1));
  }

  lemma EnqueueFirst(row: Row)
    ensures Enqueue([], row) == [row]
  {
  }

  lemma EnqueuedUpTo(rows: seq<Row>, row: Row, high: Option<nat>)
    requires AllUpTo(rows, high) && (high.Some? ==> high.value <= row.index)
    ensures AllUpTo(Enqueue(rows, row), Some(row.index))
  {
    hide FindRow, Merge;
  }

  lemma PushAlongside(cfgA: Config, cfgB: Config, v: Batcher, w: Batcher, row: Row)
    requires ValidTable(v.table) && ValidTable(w.table) && NeverExpires(cfgA) && NeverExpires(cfgB)
    requires Alongside(cfgA.cap, cfgB.cap, v, w) && Accepts(v, row.index)
    ensures Alongside(cfgA.cap, cfgB.cap, Push(cfgA, v, row).0, Push(cfgB, w, row).0)
  {
    hide Push, Level, Overtaken, SameIds;
    SameIdsAfter(cfgA, cfgB, v, w, row);
    if cfgA.cap == cfgB.cap {
      PushLevel(cfgA, cfgB, v, w, row);
    } else {
      PushOvertaken(cfgA, cfgB, v, w, row);
    }
  }

  ghost predicate WalksAlongside(a: nat, b: nat, v: Walk, w: Walk) {
    && v.status.Running? && w.status.Running?
    && v.open == w.open && v.currentRow == w.currentRow && v.values == w.values
    && Alongside(a, b, v.batcher, w.batcher)
  }

  lemma TakeAlongside(cfgA: Config, cfgB: Config, v: Walk, w: Walk, cell: Cell)
    requires ValidTable(v.batcher.table) && ValidTable(w.batcher.table)
    requires NeverExpires(cfgA) && NeverExpires(cfgB) && WalksAlongside(cfgA.cap, cfgB.cap, v, w)
    requires Take(cfgA, v, cell).status.Running?
    ensures WalksAlongside(cfgA.cap, cfgB.cap, Take(cfgA, v, cell), Take(cfgB, w, cell))
  {
    hide Alongside, Push, Placed;
    if RowPushed(w, cell).Some? {
      var row := RowPushed(w, cell).value;
      AcceptsAlongside(cfgA.cap, cfgB.cap, v.batcher, w.batcher, row.index);
      PushAlongside(cfgA, cfgB, v.batcher, w.batcher, row);
    }
  }

  lemma AcceptsAlongside(a: nat, b: nat, v: Batcher, w: Batcher, row: nat)
    requires Alongside(a, b, v, w) && Accepts(v, row)
    ensures Accepts(w, row)
  {
  }

  lemma TablesAlongside(a: nat, b: nat, v: Walk, w: Walk, arrival: Arrival)
    requires WalksAlongside(a, b, v, w)
    ensures Convert(v.batcher.table, arrival).1 == Convert(w.batcher.table, arrival).1
    ensures var t, u := Convert(v.batcher.table, arrival).0, Convert(w.batcher.table, arrival).0;
            WalksAlongside(a, b, v.(batcher := v.batcher.(table := t)), w.(batcher := w.batcher.(table := u)))
  {
    ConvertSame(v.batcher.table, w.batcher.table, arrival);
    hide Convert;
  }

  ghost predicate SameOrSingle(s: Setup, t: Setup) {
    && t == s.(cfg := t.cfg) && NeverExpires(s.cfg) && NeverExpires(t.cfg)
    && (t.cfg.cap == s.cfg.cap || s.cfg.cap == 1)
  }

  lemma StepAlongside(s: Setup, t: Setup, before: seq<Arrival>, arrival: Arrival)
    requires SameOrSingle(s, t)
    requires WalksAlongside(s.cfg.cap, t.cfg.cap, Walked(s, before), Walked(t, before))
    requires Walked(s, before + [arrival]).status.Running?
    ensures WalksAlongside(s.cfg.cap, t.cfg.cap, Walked(s, before + [arrival]), Walked(t, before + [arrival]))
  {
    WalkedStep(s, before, arrival);
    WalkedStep(t, before, arrival);
    TablesAlongside(s.cfg.cap, t.cfg.cap, Walked(s, before), Walked(t, before), arrival);
    var cell := NextCell(s, before, arrival);
    if Kept(s.header, cell) {
      hide WalksAlongside, Take, NeverExpires;
      TakeAlongside(s.cfg, t.cfg, Ready(s, before, arrival), Ready(t, before, arrival), cell);
    }
  }

  lemma {:induction false} RunAlongside(s: Setup, t: Setup, arrivals: seq<Arrival>)
    requires SameOrSingle(s, t) && Walked(s, arrivals).status.Running?
    ensures WalksAlongside(s.cfg.cap, t.cfg.cap, Walked(s, arrivals), Walked(t, arrivals))
  {
    hide Step, Alongside;
    if arrivals == [] {
      NothingAlongside(s, t);
    } else {
      var before, a := arrivals[..|arrivals| - 1], arrivals[|arrivals| - 1];
      assert before + [a] == arrivals;
      RanBefore(s, before, a);
      RunAlongside(s, t, before);
      StepAlongside(s, t, before, a);
    }
  }

  lemma NothingAlongside(s: Setup, t: Setup)
    requires SameOrSingle(s, t)
    ensures WalksAlongside(s.cfg.cap, t.cfg.cap, Walked(s, []), Walked(t, []))
  {
  }

  lemma SameOrSingleCompletes(s: Setup, t: Setup, arrivals: seq<Arrival>)
    requires SameOrSingle(s, t) && Stream(s, arrivals, false).status.Completed?
    ensures Stream(t, arrivals, false).status.Completed?
  {
    hide Alongside, Finish;
    CompletedRan(s, arrivals);
    RunAlongside(s, t, arrivals);
    RunInv(t, arrivals);
    FinishInv(t.cfg, t.header, Walked(t, arrivals));
  }

  // ---- a multiple that is larger ----

  const BULK := 5 * 1024 * 1024

  function Bulky(): Populated {
    Str(seq(BULK, _ => 65))
  }

  /** Two heavy rows, `a` rows apart. */
  function HeavyAt(a: nat, k: nat): Populated {
    if k == 1 || k == a + 1 then Bulky() else Int(0)
  }

  function Heavy(a: nat): nat -> Populated {
    k => HeavyAt(a, k)
  }

  lemma HeavyBytes(a: nat, k: nat)
    ensures ApproxCellBytes(CellData(Heavy(a)(k), None, None)) == if k == 1 || k == a + 1 then BULK + 6 else 14
  {
  }

  lemma {:induction false} WindowBytes(base: Base, a: nat, n: nat)
    requires n <= a <= MANY
    ensures ApproxBytes(Waiting(base, Heavy(a), 0, n)) == if n == 0 then 0 else BULK + 6 + 14 * (n - 1)
    decreases n
  {
    if n == 0 {
    } else {
      hide ApproxBytes, Waiting, Heavy, ApproxCellBytes;
      WindowBytes(base, a, n - 1);
      WaitingMore(base, Heavy(a), 0, n);
      HeavyBytes(a, n);
    }
  }

  lemma NothingWaits(base: Base, f: nat -> Populated, n: nat)
    requires n <= MANY + 2
    ensures ApproxBytes(Waiting(base, f, n, n)) == 0
  {
  }

  /** One heavy row in a queue fits it under the byte cap. */
  lemma HeavyIsLight(base: Base, a: nat, cap: nat, n: nat)
    requires 0 < a <= cap <= MANY && n <= if cap == a then a + 1 else a
    ensures Light(base, Heavy(a), cap, n)
  {
    hide ApproxBytes, Waiting, Flushed, Heavy, ApproxCellBytes;
    forall k | 0 < k <= n
      ensures ApproxBytes(QueueAt(base, Heavy(a), cap, k)) < MAX_BATCH_BYTES
    {
      if k <= a {
        NothingFlushed(cap, k - 1);
        WindowBytes(base, a, k);
      } else {
        JustFlushed(a);
        NothingWaits(base, Heavy(a), a);
        WaitingMore(base, Heavy(a), a, a + 1);
        HeavyBytes(a, a + 1);
      }
    }
  }

  lemma JustFlushed(cap: nat)
    requires cap > 0
    ensures Flushed(cap, cap) == cap
    ensures cap > 1 ==> Flushed(cap, cap + 1) == cap
  {
    NothingFlushed(cap, cap - 1);
  }

  /** Two heavy rows in one queue fill it. */
  lemma TwoHeavyRows(base: Base, a: nat)
    requires 0 < a <= MANY
    ensures ApproxBytes(Waiting(base, Heavy(a), 0, a + 1)) >= MAX_BATCH_BYTES
  {
    hide ApproxBytes, Waiting, Heavy, ApproxCellBytes;
    WindowBytes(base, a, a);
    WaitingMore(base, Heavy(a), 0, a + 1);
    HeavyBytes(a, a + 1);
  }

  /** Two heavy rows with `a - 1` rows between them, one more row, and then a
      row before the second heavy one. */
  function HeavyMarch(base: Base, a: nat): seq<Arrival>
    requires a <= MANY
  {
    March(base, Heavy(a), a + 2) + [Put(base + 2 * a + 1, Int(0))]
  }

  lemma HeavyIsRepaired(s: Setup, base: Base)
    requires Unhurried(s, base) && s.cfg.cap >= 2
    ensures Stream(s, HeavyMarch(base, s.cfg.cap), false).status.Completed?
  {
    hide March, Waiting, NoByteFlush, Light, Flushed, Heavy, Finish, Step, Converted, NeverExpires;
    var a := s.cfg.cap;
    HeavyIsLight(base, a, a, a + 1);
    MarchGoesOn(s, base, Heavy(a), a + 2);
    JustFlushed(a);
    assert !TooLate(s, March(base, Heavy(a), a + 2), Put(base + 2 * a + 1, Int(0)));
    OneMoreCompletes(s, March(base, Heavy(a), a + 2), Put(base + 2 * a + 1, Int(0)));
  }

  /** The second heavy row fills the queue, which is sent up to it. */
  lemma HeavyPush(cfg: Config, q: Batcher, base: Base, a: nat)
    requires 0 < a <= MANY && ValidTable(q.table) && q.rows == Waiting(base, Heavy(a), 0, a)
    ensures var after := Push(cfg, q, Alone(base + 2 * (a + 1), Heavy(a)(a + 1))).0;
            after.rows == [] && after.highestSent == Some(base + 2 * (a + 1))
  {
    hide Flush, Enqueue, ApproxBytes, Waiting, Alone, Heavy, Lingered;
    NextWaits(base, Heavy(a), 0, a + 1);
    TwoHeavyRows(base, a);
    var rows := Waiting(base, Heavy(a), 0, a + 1);
    MarchedFlush(cfg, q.(rows := rows, pushes := q.pushes + 1), base, Heavy(a), 0, a + 1);
  }

  lemma HeavyIsSent(t: Setup, base: Base, a: nat)
    requires Unhurried(t, base) && 0 < a < t.cfg.cap
    ensures var w := Walked(t, March(base, Heavy(a), a + 2));
            && w.status.Running? && w.open && w.currentRow == base + 2 * (a + 2)
            && w.batcher.highestSent == Some(base + 2 * (a + 1))
  {
    hide Waiting, Push, Enqueue, ApproxBytes, Flushed, Placed, Carries, Light, Heavy, NeverExpires;
    HeavyIsLight(base, a, t.cfg.cap, a);
    MarchGoesOn(t, base, Heavy(a), a + 1);
    NothingFlushed(t.cfg.cap, a);
    MarchMore(base, Heavy(a), a + 2);
    var before, cell := March(base, Heavy(a), a + 1), Put(base + 2 * (a + 2), Heavy(a)(a + 2));
    WalkedStep(t, before, cell);
    PlacedAlone(base + 2 * (a + 2), Heavy(a)(a + 2));
    HeavyPush(t.cfg, Walked(t, before).batcher, base, a);
  }

  lemma HeavyIsRefused(t: Setup, base: Base, a: nat)
    requires Unhurried(t, base) && 0 < a < t.cfg.cap
    ensures !Stream(t, HeavyMarch(base, a), false).status.Completed?
  {
    hide March, Walked, Finish, Step, Heavy, NeverExpires;
    HeavyIsSent(t, base, a);
    assert TooLate(t, March(base, Heavy(a), a + 2), Put(base + 2 * a + 1, Int(0)));
    OneMoreRefused(t, March(base, Heavy(a), a + 2), Put(base + 2 * a + 1, Int(0)));
  }

  // ---- exactly ----

  /** Of two caps that differ in nothing else, with a clock that never runs out
      and rows of any size, one completes every stream that the other does
      exactly when it is the same cap, or the other sends every row at once. */
  lemma {:induction false} OnlyTheSameCapRepairs(s: Setup, t: Setup, base: Base)
    requires Unhurried(s, base) && Unhurried(t, base) && t == s.(cfg := t.cfg)
    ensures t.cfg.cap == s.cfg.cap || s.cfg.cap == 1 <==>
            forall arrivals :: Stream(s, arrivals, false).status.Completed?
                               ==> Stream(t, arrivals, false).status.Completed?
  {
    hide Stream, HeavyMarch, LateMarch;
    var a, b := s.cfg.cap, t.cfg.cap;
    if b == a || a == 1 {
      forall arrivals | Stream(s, arrivals, false).status.Completed?
        ensures Stream(t, arrivals, false).status.Completed?
      {
        SameOrSingleCompletes(s, t, arrivals);
      }
    } else if MultipleOf(b, a) {
      HeavyIsRefused(t, base, a);
      HeavyIsRepaired(s, base);
    } else {
      LateIsRefused(t, base);
      LateIsRepaired(s, base, b);
    }
  }
}
