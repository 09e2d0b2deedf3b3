/** A larger row cap that is no multiple of a smaller one can end a stream the
    smaller one completes (`src/service.rs`), although the stream's own advice
    is to retry with a larger one. */
module RepairLimits {
  import opened Sequences
  import opened Arithmetic
  import opened Contract
  import opened Batching
  import opened Walking
  import opened StreamTheorems
  import opened RepairWindow

  const MANY := MAX_ROWS_PER_MESSAGE_CEILING

  // ---- rows in order ----

  /** A row with room for a march after it. */
  type Base = n: nat | n + 2 * (MANY + 3) < 0xFFFF_FFFF
  type Populated = v: ReadValue | !v.Empty? witness Int(0)

  /** A cell in column A. */
  function Put(row: RowIndex, v: Populated): Arrival {
    Arrival(row, 0, Plain(v), None, None)
  }

  function Alone(row: RowIndex, v: Populated): Row {
    Row(row, [CellData(v, None, None)])
  }

  lemma PlacedAlone(row: RowIndex, v: Populated)
    ensures Placed([], 0, CellData(v, None, None)) == Alone(row, v).values
    ensures Carries(CellData(v, None, None))
  {
  }

  /** One cell in each of the rows 2, 4, .. `2 * n` past `base`, the k-th of them
      holding `f(k)`. */
  function March(base: Base, f: nat -> Populated, n: nat): (arrivals: seq<Arrival>)
    requires n <= MANY + 2
    ensures |arrivals| == n
  {
    if n == 0 then [] else March(base, f, n - 1) + [Put(base + 2 * n, f(n))]
  }

  lemma MarchMore(base: Base, f: nat -> Populated, n: nat)
    requires 0 < n <= MANY + 2
    ensures March(base, f, n) == March(base, f, n - 1) + [Put(base + 2 * n, f(n))]
    ensures March(base, f, n)[..n - 1] == March(base, f, n - 1)
  {
  }

  /** How many of the first `pushed` rows are already sent. */
  function Flushed(cap: nat, pushed: nat): (sent: nat)
    ensures sent <= pushed
    ensures cap > 0 ==> pushed - sent < cap
  {
    if pushed == 0 then 0
    else
      var before := Flushed(cap, pushed - 1);
      if pushed - before >= cap then pushed else before
  }

  lemma {:induction false} FlushedMultiple(cap: nat, pushed: nat)
    requires cap > 0
    ensures MultipleOf(Flushed(cap, pushed), cap)
  {
    if pushed == 0 {
    } else {
      FlushedMultiple(cap, pushed - 1);
      var before := Flushed(cap, pushed - 1);
      if pushed - before >= cap {
        assert pushed == before + cap;
      }
    }
  }

  lemma {:induction false} NothingFlushed(cap: nat, pushed: nat)
    requires pushed < cap
    ensures Flushed(cap, pushed) == 0
  {
    if pushed == 0 {
    } else {
      NothingFlushed(cap, pushed - 1);
    }
  }

  /** The rows queued when `from` of them are sent. */
  function Waiting(base: Base, f: nat -> Populated, from: nat, to: nat): (rows: seq<Row>)
    requires from <= to <= MANY + 2
    ensures |rows| == to - from
    ensures forall k :: 0 <= k < |rows| ==> rows[k] == Alone(base + 2 * (from + k + 1), f(from + k + 1))
  {
    seq(to - from, k requires 0 <= k < to - from => Alone(base + 2 * (from + k + 1), f(from + k + 1)))
  }

  ghost predicate Marched(s: Setup, base: Base, f: nat -> Populated, n: nat)
    requires 0 < n <= MANY + 2
  {
    var w, sent := Walked(s, March(base, f, n)), Flushed(s.cfg.cap, n - 1);
    && w.status.Running? && w.open && w.currentRow == base + 2 * n && w.values == Alone(base + 2 * n, f(n)).values
    && w.batcher.rows == Waiting(base, f, sent, n - 1)
    && w.batcher.highestSent == if sent == 0 then None else Some(base + 2 * sent)
  }

  /** The rows queued once the `k`-th has been pushed, if they are not sent. */
  function QueueAt(base: Base, f: nat -> Populated, cap: nat, k: nat): seq<Row>
    requires 0 < k <= MANY + 2
  {
    Waiting(base, f, Flushed(cap, k - 1), k)
  }

  /** None of the first `n` pushes fills a batch by its bytes. */
  ghost predicate Light(base: Base, f: nat -> Populated, cap: nat, n: nat)
    requires n <= MANY + 1
  {
    forall k :: 0 < k <= n ==> ApproxBytes(QueueAt(base, f, cap, k)) < MAX_BATCH_BYTES
  }

  /** A clock that never runs out, and a header row, if any, at or before
      `base`. */
  ghost predicate Unhurried(s: Setup, base: Base) {
    && (s.header.Some? ==> s.header.value <= base)
    && NeverExpires(s.cfg) && 0 < s.cfg.cap <= MANY
  }

  lemma NextWaits(base: Base, f: nat -> Populated, from: nat, n: nat)
    requires from < n <= MANY + 2
    ensures Enqueue(Waiting(base, f, from, n - 1), Alone(base + 2 * n, f(n))) == Waiting(base, f, from, n)
  {
    assert Waiting(base, f, from, n) == Waiting(base, f, from, n - 1) + [Alone(base + 2 * n, f(n))];
  }

  /** A full queue of rows in order leaves nothing, sent up to its last. */
  lemma MarchedFlush(cfg: Config, q: Batcher, base: Base, f: nat -> Populated, from: nat, n: nat)
    requires from < n <= MANY + 2 && q.rows == Waiting(base, f, from, n) && ValidTable(q.table)
    ensures Flush(cfg, q).0.rows == [] && Flush(cfg, q).0.highestSent == Some(base + 2 * n)
  {
    hide SortRows, Flush, Waiting;
    SortedLast(q.rows, cfg.tie);
    FlushedHigh(cfg, q);
    var last := SortRows(q.rows, cfg.tie)[|q.rows| - 1].index;
    assert q.rows[|q.rows| - 1].index == base + 2 * n;
    var k :| 0 <= k < |q.rows| && q.rows[k].index == last;
  }

  /** One row further: the row under construction is queued, and the queue is
      sent when that fills it. */
  lemma MarchedPush(cfg: Config, q: Batcher, base: Base, f: nat -> Populated, n: nat)
    requires 0 < n <= MANY + 1 && NeverExpires(cfg) && 0 < cfg.cap <= MANY && ValidTable(q.table)
    requires q.rows == Waiting(base, f, Flushed(cfg.cap, n - 1), n - 1)
    requires q.highestSent == if Flushed(cfg.cap, n - 1) == 0 then None else Some(base + 2 * Flushed(cfg.cap, n - 1))
    requires ApproxBytes(Waiting(base, f, Flushed(cfg.cap, n - 1), n)) < MAX_BATCH_BYTES
    ensures ApproxBytes(Enqueue(q.rows, Alone(base + 2 * n, f(n)))) < MAX_BATCH_BYTES
    ensures var after := Push(cfg, q, Alone(base + 2 * n, f(n))).0;
            && after.rows == Waiting(base, f, Flushed(cfg.cap, n), n)
            && after.highestSent == if Flushed(cfg.cap, n) == 0 then None else Some(base + 2 * Flushed(cfg.cap, n))
  {
    hide Push, Flush, Enqueue, ApproxBytes, Waiting, Alone;
    var sent := Flushed(cfg.cap, n - 1);
    NextWaits(base, f, sent, n);
    PushByCap(cfg, q, Alone(base + 2 * n, f(n)));
    if n - sent >= cfg.cap {
      MarchedFlush(cfg, q.(rows := Waiting(base, f, sent, n), pushes := q.pushes + 1), base, f, sent, n);
    }
  }

  lemma MarchStarts(s: Setup, base: Base, f: nat -> Populated)
    requires Unhurried(s, base)
    ensures Marched(s, base, f, 1) && NoByteFlush(s, March(base, f, 1))
  {
    MarchMore(base, f, 1);
    WalkedStep(s, [], Put(base + 2, f(1)));
    PlacedAlone(base + 2, f(1));
    hide Push, Enqueue, ApproxBytes, Placed, Carries;
    assert March(base, f, 1) == [] + [Put(base + 2, f(1))];
  }

  lemma {:induction false} MarchGoesOn(s: Setup, base: Base, f: nat -> Populated, n: nat)
    requires Unhurried(s, base) && 0 < n <= MANY + 2 && Light(base, f, s.cfg.cap, n - 1)
    ensures Marched(s, base, f, n) && NoByteFlush(s, March(base, f, n))
    decreases n
  {
    hide Waiting, Push, Enqueue, ApproxBytes, Marched, Unhurried, NoByteFlush, March;
    if n == 1 {
      MarchStarts(s, base, f);
    } else {
      MarchGoesOn(s, base, f, n - 1);
      MarchStep(s, base, f, n);
    }
  }

  /** The push the next row of a march makes. */
  lemma MarchRow(s: Setup, base: Base, f: nat -> Populated, n: nat)
    requires Unhurried(s, base) && 1 < n <= MANY + 2 && Light(base, f, s.cfg.cap, n - 1)
    requires Marched(s, base, f, n - 1)
    ensures var w := Walked(s, March(base, f, n - 1));
            var row := Alone(base + 2 * (n - 1), f(n - 1));
            var sent := Flushed(s.cfg.cap, n - 1);
            var after := Push(s.cfg, w.batcher, row).0;
            && ApproxBytes(Enqueue(w.batcher.rows, row)) < MAX_BATCH_BYTES
            && after.rows == Waiting(base, f, sent, n - 1)
            && (after.highestSent == if sent == 0 then None else Some(base + 2 * sent))
  {
    hide Waiting, Push, Enqueue, ApproxBytes, Flushed, Alone, Walked;
    assert ApproxBytes(QueueAt(base, f, s.cfg.cap, n - 1)) < MAX_BATCH_BYTES;
    MarchedPush(s.cfg, Walked(s, March(base, f, n - 1)).batcher, base, f, n - 1);
  }

  lemma MarchStep(s: Setup, base: Base, f: nat -> Populated, n: nat)
    requires Unhurried(s, base) && 1 < n <= MANY + 2 && Light(base, f, s.cfg.cap, n - 1)
    requires Marched(s, base, f, n - 1) && NoByteFlush(s, March(base, f, n - 1))
    ensures Marched(s, base, f, n) && NoByteFlush(s, March(base, f, n))
  {
    hide Waiting, Push, Enqueue, ApproxBytes, Flushed, Placed, Carries, Light;
    MarchMore(base, f, n);
    WalkedStep(s, March(base, f, n - 1), Put(base + 2 * n, f(n)));
    PlacedAlone(base + 2 * n, f(n));
    MarchRow(s, base, f, n);
  }

  // ---- a row that comes late ----

  function Zeros(k: nat): Populated {
    Int(0)
  }

  lemma AloneBytes(row: RowIndex, v: Populated)
    ensures ApproxRowBytes(Alone(row, v).values) == ApproxCellBytes(CellData(v, None, None))
    ensures ApproxBytes([Alone(row, v)]) == ApproxCellBytes(CellData(v, None, None))
  {
    SumOne(ApproxCellBytes, CellData(v, None, None));
    SumOne((row: Row) => ApproxRowBytes(row.values), Alone(row, v));
  }

  lemma WaitingMore(base: Base, f: nat -> Populated, from: nat, to: nat)
    requires from < to <= MANY + 2
    ensures Waiting(base, f, from, to) == Waiting(base, f, from, to - 1) + [Alone(base + 2 * to, f(to))]
    ensures ApproxBytes(Waiting(base, f, from, to)) ==
            ApproxBytes(Waiting(base, f, from, to - 1)) + ApproxCellBytes(CellData(f(to), None, None))
  {
    hide ApproxBytes, ApproxCellBytes;
    assert Waiting(base, f, from, to) == Waiting(base, f, from, to - 1) + [Alone(base + 2 * to, f(to))];
    ApproxBytesAppend(Waiting(base, f, from, to - 1), Alone(base + 2 * to, f(to)));
    AloneBytes(base + 2 * to, f(to));
  }

  lemma {:induction false} ZerosBytes(base: Base, from: nat, last: nat)
    requires from <= last <= MANY + 2
    ensures ApproxBytes(Waiting(base, Zeros, from, last)) == 14 * (last - from)
    decreases last
  {
    if from == last {
    } else {
      hide ApproxBytes, Waiting;
      ZerosBytes(base, from, last - 1);
      WaitingMore(base, Zeros, from, last);
    }
  }

  lemma ZerosAreLight(base: Base, cap: nat, n: nat)
    requires 0 < cap <= MANY && n <= MANY + 1
    ensures Light(base, Zeros, cap, n)
  {
    hide ApproxBytes, Waiting;
    forall k | 0 < k <= n
      ensures ApproxBytes(QueueAt(base, Zeros, cap, k)) < MAX_BATCH_BYTES
    {
      ZerosBytes(base, Flushed(cap, k - 1), k);
    }
  }

  /** `cap + 1` rows in order, and then the row before the last one sent. */
  function LateMarch(base: Base, cap: nat): seq<Arrival>
    requires 0 < cap <= MANY
  {
    March(base, Zeros, cap + 1) + [Put(base + 2 * cap - 1, Int(0))]
  }

  lemma LateIsTooLate(s: Setup, base: Base)
    requires Unhurried(s, base)
    ensures Marched(s, base, Zeros, s.cfg.cap + 1) && Flushed(s.cfg.cap, s.cfg.cap) == s.cfg.cap
    ensures NoByteFlush(s, March(base, Zeros, s.cfg.cap + 1))
    ensures TooLate(s, March(base, Zeros, s.cfg.cap + 1), Put(base + 2 * s.cfg.cap - 1, Int(0)))
  {
    hide March, Waiting, NoByteFlush, Light;
    var b := s.cfg.cap;
    ZerosAreLight(base, b, b);
    MarchGoesOn(s, base, Zeros, b + 1);
    NothingFlushed(b, b - 1);
  }

  lemma {:induction false} LateIsRefused(s: Setup, base: Base)
    requires Unhurried(s, base)
    ensures !Stream(s, LateMarch(base, s.cfg.cap), false).status.Completed?
    ensures NoByteFlush(s, LateMarch(base, s.cfg.cap))
  {
    hide March, Marched, TooLate, Flushed, Step, NextCell, RowPushed, Enqueue, ApproxBytes, NeverExpires;
    var b := s.cfg.cap;
    LateIsTooLate(s, base);
    var arrivals, a := March(base, Zeros, b + 1), Put(base + 2 * b - 1, Int(0));
    assert LateMarch(base, b)[..b + 1] == arrivals;
    RunInv(s, arrivals);
    StepInv(s, arrivals, a);
    LatePushIsSmall(s, base, b);
  }

  lemma LatePushIsSmall(s: Setup, base: Base, b: nat)
    requires Unhurried(s, base) && s.cfg.cap == b && Marched(s, base, Zeros, b + 1) && Flushed(b, b) == b
    ensures var w := Walked(s, March(base, Zeros, b + 1));
            var row := RowPushed(w, NextCell(s, March(base, Zeros, b + 1), Put(base + 2 * b - 1, Int(0))));
            row.Some? ==> ApproxBytes(Enqueue(w.batcher.rows, row.value)) < MAX_BATCH_BYTES
  {
    var w := Walked(s, March(base, Zeros, b + 1));
    assert w.batcher.rows == [];
    var row := Alone(base + 2 * b - 1, Int(0));
    assert Enqueue([], row) == [row];
    hide Push, ApproxBytes, Enqueue;
    PlacedAlone(base + 2 * b - 1, Int(0));
    AloneBytes(base + 2 * b - 1, Int(0));
  }

  lemma LateIsInTime(s: Setup, base: Base, b: nat)
    requires Unhurried(s, base) && 0 < b <= MANY && !MultipleOf(b, s.cfg.cap)
    ensures Walked(s, March(base, Zeros, b + 1)).status.Running?
    ensures !TooLate(s, March(base, Zeros, b + 1), Put(base + 2 * b - 1, Int(0)))
  {
    hide March, Waiting, NoByteFlush, Light;
    ZerosAreLight(base, s.cfg.cap, b);
    MarchGoesOn(s, base, Zeros, b + 1);
    FlushedMultiple(s.cfg.cap, b);
  }

  lemma {:induction false} LateIsRepaired(s: Setup, base: Base, b: nat)
    requires Unhurried(s, base) && 0 < b <= MANY && !MultipleOf(b, s.cfg.cap)
    ensures Stream(s, LateMarch(base, b), false).status.Completed?
  {
    hide March, TooLate, MultipleOf, Finish, Step, Unhurried;
    LateIsInTime(s, base, b);
    OneMoreCompletes(s, March(base, Zeros, b + 1), Put(base + 2 * b - 1, Int(0)));
  }

  /** A running stream completes with one more cell that is not too late. */
  lemma OneMoreCompletes(s: Setup, before: seq<Arrival>, a: Arrival)
    requires Walked(s, before).status.Running? && !TooLate(s, before, a)
    ensures Stream(s, before + [a], false).status.Completed?
  {
    hide TooLate, Finish, Walked;
    RunInv(s, before);
    StepInv(s, before, a);
    RunInv(s, before + [a]);
    FinishInv(s.cfg, s.header, Walked(s, before + [a]));
  }

  lemma OneMoreRefused(s: Setup, before: seq<Arrival>, a: Arrival)
    requires TooLate(s, before, a)
    ensures !Stream(s, before + [a], false).status.Completed?
  {
    hide NextCell, Kept, Accepts;
    RunInv(s, before);
    StepInv(s, before, a);
    hide Walked;
  }

  /** Of two caps that differ in nothing else, with a clock that never runs out,
      one completes every stream the other does exactly when it is a multiple of
      it: as long as no batch is filled by its bytes. */
  lemma {:induction false} WiderRepairsExactly(s: Setup, t: Setup, base: Base)
    requires Unhurried(s, base) && Unhurried(t, base) && t == s.(cfg := t.cfg)
    ensures t.cfg.cap % s.cfg.cap == 0 <==>
            forall arrivals :: NoByteFlush(t, arrivals) && Stream(s, arrivals, false).status.Completed?
                               ==> Stream(t, arrivals, false).status.Completed?
  {
    hide NoByteFlush, Stream;
    if t.cfg.cap % s.cfg.cap == 0 {
      forall arrivals | NoByteFlush(t, arrivals) && Stream(s, arrivals, false).status.Completed?
        ensures Stream(t, arrivals, false).status.Completed?
      {
        MultiplesComplete(s, t, arrivals);
      }
    } else {
      MultipleDivides(t.cfg.cap, s.cfg.cap);
      LateIsRefused(t, base);
      LateIsRepaired(s, base, t.cfg.cap);
    }
  }

  lemma {:induction false} MultipleDivides(n: nat, a: nat)
    requires a > 0
    ensures MultipleOf(n, a) ==> n % a == 0
  {
    if n < a {
    } else {
      MultipleDivides(n - a, a);
      AddOnce(n - a, a);
    }
  }

  lemma AddOnce(n: nat, a: nat)
    requires a > 0
    ensures n % a == 0 ==> (n + a) % a == 0
  {
    var q := n / a;
    if n % a == 0 {
      assert n + a == (q + 1) * a;
      ExactDivision(q + 1, a);
    }
  }
}
