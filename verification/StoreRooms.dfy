/** What a workbook costs the store, from its reservation on (`src/store.rs`),
    and what a refusal names. */
module StoreRooms {
  import opened Sequences
  import opened Budgets
  import opened ReaderPools
  import opened StoreProtocol
  import opened StoreSafety
  import opened WorkbookStores

  // ---- what was reserved stays what is charged ----

  /** A slot made for an upload of `length` bytes that inflates to `inflated`:
      room for both, given up, or a workbook that is charged for both, each
      further reader of which is charged `inflated`. */
  predicate RoomFor(slot: Slot, length: nat, inflated: nat) {
    match slot
    case Reserved(bytes, readerBytes) => bytes == SatAdd(length, inflated) && readerBytes == inflated
    case Abandoned => true
    case Open(b) => b.heldBytes == SatAdd(length, inflated) && b.readerBytes == inflated
  }

  lemma SweptRoom(c: Limits, now: nat, slot: Slot, length: nat, inflated: nat)
    requires RoomFor(slot, length, inflated)
    ensures RoomFor(SweptSlot(c, now, slot), length, inflated)
  {
  }

  predicate SameCharges(b: Book, n: Book) {
    n.heldBytes == b.heldBytes && n.readerBytes == b.readerBytes
  }

  lemma HandleRoom(c: Limits, s: Store, a: Step)
    requires Enabled(c, s, a) && (a.Fetch? || a.Touch? || a.Release? || a.DropPool? || a.GiveCharge?)
    ensures SameCharges(s.slots[a.i].book, NextBook(c, s, a))
  {
    hide Park, Charged, Firsts, Furthers, Dropped;
  }

  lemma ReaderRoom(c: Limits, s: Store, a: Step)
    requires Enabled(c, s, a) && (a.Checkout? || a.ChargeReader? || a.OpenReader? || a.Return?)
    ensures SameCharges(s.slots[a.i].book, NextBook(c, s, a))
  {
    hide Park, Charged, Firsts, Furthers, Dropped;
  }

  lemma BookRoom(c: Limits, s: Store, a: Step)
    requires Enabled(c, s, a) && OnBook(a)
    ensures SameCharges(s.slots[a.i].book, NextBook(c, s, a))
  {
    hide Enabled, NextBook, SameCharges;
    if a.Checkout? || a.ChargeReader? || a.OpenReader? || a.Return? {
      ReaderRoom(c, s, a);
    } else {
      HandleRoom(c, s, a);
    }
  }

  /** No step changes what a slot was made for. */
  lemma {:induction false} StepKeepsRoom(c: Limits, s: Store, a: Step, i: nat, length: nat, inflated: nat)
    requires Enabled(c, s, a) && i < |s.slots| && RoomFor(s.slots[i], length, inflated)
    ensures i < |Next(c, s, a).slots| && RoomFor(Next(c, s, a).slots[i], length, inflated)
  {
    hide Fits, Charged, NextBook, NextHeld, SweptSlot;
    if a.Reserve? || a.Evict? {
      SweptRoom(c, s.now, s.slots[i], length, inflated);
    } else if OnBook(a) {
      BookRoom(c, s, a);
    }
  }

  lemma {:induction false} RunKeepsRoom(c: Limits, s: Store, steps: seq<Step>, i: nat, length: nat, inflated: nat)
    requires Runs(c, s, steps) && i < |s.slots| && RoomFor(s.slots[i], length, inflated)
    ensures i < |After(c, s, steps).slots| && RoomFor(After(c, s, steps).slots[i], length, inflated)
    decreases |steps|
  {
    hide Next, Enabled, RoomFor;
    if steps == [] {
    } else {
      StepKeepsRoom(c, s, steps[0], i, length, inflated);
      RunKeepsRoom(c, Next(c, s, steps[0]), steps[1..], i, length, inflated);
    }
  }

  /** A workbook just registered: charged what was reserved for it, its first
      reader parked and uncharged, one handle out, and used just now. */
  lemma {:induction false} RegisteredIs(c: Limits, s: Store, i: nat, stamp: nat)
    requires Enabled(c, s, Register(i, stamp))
    ensures var t := Next(c, s, Register(i, stamp));
            && IsOpen(t, i)
            && var b := t.slots[i].book;
            && b.heldBytes == s.slots[i].bytes && b.readerBytes == s.slots[i].readerBytes
            && b.registered && b.handles == 1 && b.fetching == 0 && b.lastUsed == stamp
            && b.free == [First] && b.pooled && b.firstsOut == 0 && Charges(b) == 0
  {
    NewBookOk(s.slots[i], stamp);
    assert Park([], First).free == [First];
  }

  /** The whole life of an upload of `length` bytes that inflates to
      `inflated`: once a reservation for it has been admitted, and whatever
      happens later, the workbook it has become is charged for both; and a read
      that finds no parked reader is refused exactly when `inflated` bytes more
      do not fit, and otherwise is charged just those. */
  lemma {:induction false} ReadersCostWhatWasReserved(c: Limits, s: Store, length: nat, inflated: nat,
                                                      later: seq<Step>, parsed: bool)
    requires c.maxBytes < U64_MAX && Safe(c, s) && s.lock.Unlocked? && length <= U64_MAX && inflated <= U64_MAX
    requires ReserveRefusal(c, s, SatAdd(length, inflated)).None?
    requires Runs(c, AfterReserve(c, s, length, inflated), later)
    ensures var i := |s.slots|;
            var t := After(c, AfterReserve(c, s, length, inflated), later);
            && i < |t.slots|
            && (t.slots[i].Reserved? ==>
                  t.slots[i].bytes == SatAdd(length, inflated) && t.slots[i].readerBytes == inflated)
            && (t.slots[i].Open? ==>
                  var b := t.slots[i].book;
                  && b.heldBytes == SatAdd(length, inflated) && b.readerBytes == inflated
                  && (b.free == [] && Enabled(c, t, Checkout(i)) ==>
                        var r := AfterRead(c, t, i, parsed);
                        if t.held + inflated > c.maxBytes || !parsed then r == t
                        else r.held == t.held + inflated))
  {
    hide Safe, Sum, AfterRead, Enabled, Runs, After, Fits, AfterSweep;
    var i, t := |s.slots|, After(c, AfterReserve(c, s, length, inflated), later);
    ReservedSlot(c, s, length, inflated);
    ReserveIsSafe(c, s, length, inflated);
    RunKeepsRoom(c, AfterReserve(c, s, length, inflated), later, i, length, inflated);
    RunSafe(c, AfterReserve(c, s, length, inflated), later);
    if t.slots[i].Open? && t.slots[i].book.free == [] && Enabled(c, t, Checkout(i)) {
      ReadAlone(c, t, i, parsed);
    }
  }

  lemma ReservedSlot(c: Limits, s: Store, length: nat, inflated: nat)
    requires c.maxBytes < U64_MAX && Safe(c, s) && s.lock.Unlocked? && length <= U64_MAX && inflated <= U64_MAX
    requires ReserveRefusal(c, s, SatAdd(length, inflated)).None?
    ensures var t := AfterReserve(c, s, length, inflated);
            |t.slots| == |s.slots| + 1 && t.slots[|s.slots|] == Reserved(SatAdd(length, inflated), inflated)
  {
    ReserveAlone(c, s, length, inflated);
    SweptIsSafe(c, s);
    hide Safe, Sum, Fits, AfterReserve, AfterSweep;
  }

  // ---- interleaved ----

  /** Every slot, and the upload the lock holder is admitting, come from a
      reservation among `steps`. */
  ghost predicate CameFrom(steps: seq<Step>, slot: Slot) {
    exists k :: 0 <= k < |steps| && steps[k].Reserve? && RoomFor(slot, steps[k].length, steps[k].inflated)
  }

  ghost predicate LockCameFrom(steps: seq<Step>, lock: Lock) {
    match lock
    case Unlocked => true
    case Giving(_, next) => next.Some? ==> CameFrom(steps, Reserved(next.value.bytes, next.value.readerBytes))
    case Fitting(upload) => CameFrom(steps, Reserved(upload.bytes, upload.readerBytes))
    case Charging(upload) => CameFrom(steps, Reserved(upload.bytes, upload.readerBytes))
  }

  ghost predicate AllCameFrom(steps: seq<Step>, s: Store) {
    && LockCameFrom(steps, s.lock)
    && forall i :: 0 <= i < |s.slots| ==> CameFrom(steps, s.slots[i])
  }

  lemma CameFromMore(steps: seq<Step>, a: Step, slot: Slot)
    requires CameFrom(steps, slot)
    ensures CameFrom(steps + [a], slot)
  {
    var k :| 0 <= k < |steps| && steps[k].Reserve? && RoomFor(slot, steps[k].length, steps[k].inflated);
    assert (steps + [a])[k] == steps[k];
  }

  lemma CameFromKept(c: Limits, s: Store, steps: seq<Step>, a: Step, i: nat)
    requires Enabled(c, s, a) && i < |s.slots| && CameFrom(steps, s.slots[i])
    ensures i < |Next(c, s, a).slots| && CameFrom(steps + [a], Next(c, s, a).slots[i])
  {
    hide Next, Enabled, RoomFor;
    var k :| 0 <= k < |steps| && steps[k].Reserve? && RoomFor(s.slots[i], steps[k].length, steps[k].inflated);
    StepKeepsRoom(c, s, a, i, steps[k].length, steps[k].inflated);
    assert (steps + [a])[k] == steps[k];
  }

  lemma LockKept(c: Limits, s: Store, steps: seq<Step>, a: Step)
    requires Enabled(c, s, a) && LockCameFrom(steps, s.lock)
    ensures LockCameFrom(steps + [a], Next(c, s, a).lock)
  {
    hide Fits, Taken, NextBook, NextHeld, CameFrom, SweptSlots, Freed;
    if a.Reserve? {
      ReserveAsks(steps, a);
    } else {
      match s.lock {
        case Unlocked =>
        case Giving(_, next) =>
          if next.Some? { CameFromMore(steps, a, Reserved(next.value.bytes, next.value.readerBytes)); }
        case Fitting(upload) => CameFromMore(steps, a, Reserved(upload.bytes, upload.readerBytes));
        case Charging(upload) => CameFromMore(steps, a, Reserved(upload.bytes, upload.readerBytes));
      }
    }
  }

  lemma ReserveAsks(steps: seq<Step>, a: Step)
    requires a.Reserve?
    ensures CameFrom(steps + [a], Reserved(SatAdd(a.length, a.inflated), a.inflated))
  {
    assert (steps + [a])[|steps|] == a;
  }

  lemma OnlyTakingAdds(c: Limits, s: Store, a: Step)
    requires Enabled(c, s, a)
    ensures |s.slots| <= |Next(c, s, a).slots| <= |s.slots| + 1
    ensures |Next(c, s, a).slots| > |s.slots| ==>
              && s.lock.Charging?
              && Next(c, s, a).slots[|s.slots|] == Reserved(s.lock.upload.bytes, s.lock.upload.readerBytes)
  {
    hide Fits, Taken, NextBook, NextHeld, SweptSlot, Freed;
  }

  lemma StepCameFrom(c: Limits, s: Store, steps: seq<Step>, a: Step)
    requires Enabled(c, s, a) && AllCameFrom(steps, s)
    ensures AllCameFrom(steps + [a], Next(c, s, a))
  {
    LockKept(c, s, steps, a);
    OnlyTakingAdds(c, s, a);
    hide Next, Enabled, CameFrom;
    forall i | 0 <= i < |Next(c, s, a).slots|
      ensures CameFrom(steps + [a], Next(c, s, a).slots[i])
    {
      if i < |s.slots| {
        CameFromKept(c, s, steps, a, i);
      } else {
        CameFromMore(steps, a, Reserved(s.lock.upload.bytes, s.lock.upload.readerBytes));
      }
    }
  }

  /** However the requests interleave, every room and every workbook there is
      was made for some reservation, and is charged for it. */
  lemma {:induction false} EverySlotWasReserved(c: Limits, done: seq<Step>, s: Store, steps: seq<Step>)
    requires Runs(c, s, steps) && AllCameFrom(done, s)
    ensures AllCameFrom(done + steps, After(c, s, steps))
    decreases |steps|
  {
    hide Next, Enabled, AllCameFrom;
    if steps == [] {
      assert done + [] == done;
    } else {
      StepCameFrom(c, s, done, steps[0]);
      EverySlotWasReserved(c, done + [steps[0]], Next(c, s, steps[0]), steps[1..]);
      assert (done + [steps[0]]) + steps[1..] == done + steps;
    }
  }

  lemma {:induction false} WorkbooksAreCharged(c: Limits, steps: seq<Step>, i: nat)
    requires Runs(c, EMPTY, steps) && IsOpen(After(c, EMPTY, steps), i)
    ensures var b := After(c, EMPTY, steps).slots[i].book;
            exists k :: 0 <= k < |steps| && steps[k].Reserve?
                        && b.heldBytes == SatAdd(steps[k].length, steps[k].inflated)
                        && b.readerBytes == steps[k].inflated
  {
    hide Next, Enabled;
    EverySlotWasReserved(c, [], EMPTY, steps);
    assert [] + steps == steps;
    var slot := After(c, EMPTY, steps).slots[i];
    assert CameFrom(steps, slot);
    var k :| 0 <= k < |steps| && steps[k].Reserve? && RoomFor(slot, steps[k].length, steps[k].inflated);
  }
}
