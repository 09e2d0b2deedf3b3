/** When idle workbooks are closed (`src/store.rs`): sweeps on a monotone
    clock, at most one period apart. */
module StoreTiming {
  import opened Sequences
  import opened ReaderPools
  import opened StoreProtocol

  /** Sweeps come at most `period` apart, and a request reads the clock at
      most `lag` before it records its use with that reading. */
  datatype Schedule = Schedule(period: nat, lag: nat)

  predicate OnTime(p: Schedule, s: Store, a: Step) {
    && (a.Tick? ==> s.now + a.dt <= s.lastSweep + p.period)
    && (a.Touch? || a.Register? ==> s.now <= a.stamp + p.lag)
  }

  predicate RunsOnTime(c: Limits, p: Schedule, s: Store, steps: seq<Step>)
    decreases |steps|
  {
    steps == [] ||
    (&& Enabled(c, s, steps[0])
     && OnTime(p, s, steps[0])
     && RunsOnTime(c, p, Next(c, s, steps[0]), steps[1..]))
  }

  lemma {:induction false} OnTimeRuns(c: Limits, p: Schedule, s: Store, steps: seq<Step>)
    requires RunsOnTime(c, p, s, steps)
    ensures Runs(c, s, steps)
    decreases |steps|
  {
    hide Next, Enabled;
    if steps == [] {
    } else {
      OnTimeRuns(c, p, Next(c, s, steps[0]), steps[1..]);
    }
  }

  /** A workbook in use was stamped since the last sweep, up to the lag; one
      the last sweep left was not due then; one closed by a sweep was closed
      inside its window. */
  ghost predicate Timed(c: Limits, p: Schedule, s: Store, b: Book) {
    && b.lastUsed <= s.now
    && b.idleSince <= s.now
    && (b.registered ==> s.lastSweep < b.lastUsed + c.idleTtl && b.evictedAt.None?)
    && (b.registered && b.handles > 0 ==> s.lastSweep <= b.lastUsed + p.lag)
    && (b.registered && !Busy(b) ==> b.lastUsed <= b.idleSince <= b.lastUsed + p.period + p.lag)
    && (b.evictedAt.Some? ==> !b.registered && !Busy(b) && InWindow(c, p, b.idleSince, b.evictedAt.value))
  }

  /** After the last handle went at `idle`, no sooner than the TTL less one
      period and the lag, and before the TTL and one period have passed. */
  predicate InWindow(c: Limits, p: Schedule, idle: nat, at: nat) {
    idle + c.idleTtl <= at + p.period + p.lag && at < idle + c.idleTtl + p.period
  }

  ghost predicate AllTimed(c: Limits, p: Schedule, s: Store) {
    && s.lastSweep <= s.now <= s.lastSweep + p.period
    && forall i :: 0 <= i < |s.slots| && s.slots[i].Open? ==> Timed(c, p, s, s.slots[i].book)
  }

  lemma SweptTimed(c: Limits, p: Schedule, s: Store, slot: Slot)
    requires p.lag < c.idleTtl && s.lastSweep <= s.now <= s.lastSweep + p.period
    requires slot.Open? && Timed(c, p, s, slot.book)
    ensures Timed(c, p, s.(lastSweep := s.now), SweptSlot(c, s.now, slot).book)
  {
  }

  lemma SweepTimed(c: Limits, p: Schedule, s: Store, next: Option<Upload>)
    requires p.lag < c.idleTtl && AllTimed(c, p, s)
    ensures AllTimed(c, p, Sweep(c, s, next))
  {
    hide Timed, SweptSlot;
    var t := Sweep(c, s, next);
    forall i | 0 <= i < |t.slots| && t.slots[i].Open?
      ensures Timed(c, p, t, t.slots[i].book)
    {
      SweptStaysOpen(c, s.now, s.slots[i]);
      SweptTimed(c, p, s, s.slots[i]);
      SameClock(c, p, s.(lastSweep := s.now), t, t.slots[i].book);
    }
  }

  lemma SweptStaysOpen(c: Limits, now: nat, slot: Slot)
    ensures SweptSlot(c, now, slot).Open? == slot.Open?
  {
  }

  lemma SameClock(c: Limits, p: Schedule, s: Store, t: Store, b: Book)
    requires Timed(c, p, s, b) && s.now <= t.now && s.lastSweep == t.lastSweep
    ensures Timed(c, p, t, b)
  {
  }

  lemma BookTimed(c: Limits, p: Schedule, s: Store, a: Step)
    requires p.lag < c.idleTtl && s.lastSweep <= s.now <= s.lastSweep + p.period
    requires Enabled(c, s, a) && OnTime(p, s, a) && OnBook(a) && Timed(c, p, s, s.slots[a.i].book)
    ensures Timed(c, p, s, NextBook(c, s, a))
  {
    hide Park, Dropped, Charged, Firsts, Furthers;
  }

  lemma OthersTimed(c: Limits, p: Schedule, s: Store, a: Step)
    requires p.lag < c.idleTtl && AllTimed(c, p, s) && Enabled(c, s, a) && OnTime(p, s, a)
    requires !OnBook(a) && !a.Reserve? && !a.Evict?
    ensures AllTimed(c, p, Next(c, s, a))
  {
  }

  lemma StepTimed(c: Limits, p: Schedule, s: Store, a: Step)
    requires p.lag < c.idleTtl && AllTimed(c, p, s) && Enabled(c, s, a) && OnTime(p, s, a)
    ensures AllTimed(c, p, Next(c, s, a))
  {
    hide Timed, Sweep, NextBook;
    if a.Reserve? || a.Evict? {
      SweepTimed(c, p, s, if a.Evict? then None else Some(Upload(SatAdd(a.length, a.inflated), a.inflated)));
    } else if OnBook(a) {
      BookTimed(c, p, s, a);
      var t := Next(c, s, a);
      forall i | 0 <= i < |t.slots| && t.slots[i].Open?
        ensures Timed(c, p, t, t.slots[i].book)
      {
        SameClock(c, p, s, t, if i == a.i then NextBook(c, s, a) else s.slots[i].book);
      }
    } else {
      OthersTimed(c, p, s, a);
    }
  }

  lemma {:induction false} RunTimed(c: Limits, p: Schedule, s: Store, steps: seq<Step>)
    requires p.lag < c.idleTtl && AllTimed(c, p, s) && RunsOnTime(c, p, s, steps)
    ensures Runs(c, s, steps) && AllTimed(c, p, After(c, s, steps))
    decreases |steps|
  {
    hide AllTimed, Next, Enabled, OnTime;
    OnTimeRuns(c, p, s, steps);
    if steps == [] {
    } else {
      StepTimed(c, p, s, steps[0]);
      RunTimed(c, p, Next(c, s, steps[0]), steps[1..]);
    }
  }

  // ---- what clients see ----

  /** A workbook some request still holds is never closed by a sweep, and
      neither is it by anything else short of its own close. */
  lemma {:induction false} BusyWorkbooksStay(c: Limits, s: Store, a: Step, i: nat)
    requires Enabled(c, s, a) && IsOpen(s, i) && s.slots[i].book.registered && Busy(s.slots[i].book)
    requires a != Close(i)
    ensures IsOpen(Next(c, s, a), i) && Next(c, s, a).slots[i].book.registered
  {
    hide Park, Dropped, Charged, Freed, Fits;
  }

  /** Over every run: a workbook idle since `t` and not used again is closed
      by a sweep no sooner than `t + TTL - period - lag`, and is gone by
      `t + TTL + period`. */
  lemma {:induction false} IdleWorkbooksCloseInTheirWindow(c: Limits, p: Schedule, steps: seq<Step>, i: nat)
    requires p.lag < c.idleTtl && RunsOnTime(c, p, EMPTY, steps)
    ensures Runs(c, EMPTY, steps)
    ensures var s := After(c, EMPTY, steps);
            IsOpen(s, i) ==>
              var b := s.slots[i].book;
              && (b.evictedAt.Some? ==> !b.registered && InWindow(c, p, b.idleSince, b.evictedAt.value))
              && (b.registered && !Busy(b) ==> s.now < b.idleSince + c.idleTtl + p.period)
  {
    hide Next, Enabled, OnTime;
    RunTimed(c, p, EMPTY, steps);
  }

  /** The reaper's period, in milliseconds: `(ttl / 4).clamp(50ms, 30s)`. */
  function ReaperPeriod(ttl: nat): nat {
    Min(Max(ttl / 4, 50), 30000)
  }

  /** With the reaper the server starts, and whatever the lag under the TTL, a
      TTL of 200 ms or more is honoured to within a quarter of itself and the
      lag, and never by more than 30 s and the lag. */
  lemma {:induction false} ReaperKeepsTheTtl(c: Limits, lag: nat, steps: seq<Step>, i: nat)
    requires 200 <= c.idleTtl && lag < c.idleTtl
    requires RunsOnTime(c, Schedule(ReaperPeriod(c.idleTtl), lag), EMPTY, steps)
    ensures Runs(c, EMPTY, steps)
    ensures var s := After(c, EMPTY, steps);
            IsOpen(s, i) && s.slots[i].book.evictedAt.Some? ==>
              var idle, at := s.slots[i].book.idleSince, s.slots[i].book.evictedAt.value;
              && 4 * idle + 3 * c.idleTtl <= 4 * (at + lag)
              && 4 * at < 4 * idle + 5 * c.idleTtl
              && idle + c.idleTtl <= at + lag + 30000
              && at < idle + c.idleTtl + 30000
  {
    hide RunsOnTime, Next, Enabled, OnTime;
    IdleWorkbooksCloseInTheirWindow(c, Schedule(ReaperPeriod(c.idleTtl), lag), steps, i);
  }

  /** A store whose TTL is zero closes nothing on its own. */
  lemma {:induction false} ZeroTtlKeepsEverything(c: Limits, s: Store, a: Step, i: nat)
    requires c.idleTtl == 0 && Enabled(c, s, a) && IsOpen(s, i) && s.slots[i].book.registered && a != Close(i)
    ensures IsOpen(Next(c, s, a), i) && Next(c, s, a).slots[i].book.registered
  {
    hide Park, Dropped, Charged, Freed, Fits;
  }
}
