/** What holds in every state the store can reach, whatever the requests do
    and however their steps interleave (`src/store.rs`). */
module StoreSafety {
  import opened Sequences
  import opened ReaderPools
  import opened StoreProtocol

  /** A workbook keeps exactly one uncharged reader, parked or checked out,
      for as long as its pool exists. */
  ghost predicate OneFirst(b: Book) {
    if b.pooled then Firsts(b.free) + b.firstsOut == 1
    else b.free == [] && b.firstsOut == 0
  }

  ghost predicate BookOk(b: Book) {
    && OneFirst(b)
    && |b.free| <= MAX_POOLED_READERS
    && (b.registered || Busy(b) ==> b.pooled)
    && (!b.pooled ==> b.furthersOut == 0)
    && (b.missed + b.opening > 0 ==> b.handles > 0)
  }

  ghost predicate BooksOk(slots: seq<Slot>) {
    forall i :: 0 <= i < |slots| && slots[i].Open? ==> BookOk(slots[i].book)
  }

  /** The budget holds exactly the registered workbooks' bytes, the bytes of
      opens still parsing, the charges of further readers, and what the lock
      holder has removed but not yet given back; both limits are kept. */
  ghost predicate Safe(c: Limits, s: Store) {
    && s.held == Sum(Accounted, s.slots) + LockBytes(s.lock)
    && s.held <= c.maxBytes
    && s.pending == Sum(Pending, s.slots)
    && Sum(Entries, s.slots) + s.pending + (if s.lock.Charging? then 1 else 0) <= c.maxOpen
    && BooksOk(s.slots)
  }

  // ---- the sweep ----

  lemma {:induction false} SweepBytes(c: Limits, now: nat, slots: seq<Slot>)
    ensures Sum(Accounted, SweptSlots(c, now, slots)) + Freed(c, now, slots) == Sum(Accounted, slots)
    ensures Sum(Pending, SweptSlots(c, now, slots)) == Sum(Pending, slots)
    ensures Sum(Entries, SweptSlots(c, now, slots)) <= Sum(Entries, slots)
  {
    if slots == [] {
    } else {
      var n := |slots| - 1;
      var swept := SweptSlots(c, now, slots);
      assert swept[..n] == SweptSlots(c, now, slots[..n]) && swept[n] == SweptSlot(c, now, slots[n]);
      SlotBytes(c, now, slots[n]);
      hide SweptSlots, SweptSlot, Accounted, Pending, Entries, FreedBySweep;
      SweepBytes(c, now, slots[..n]);
    }
  }

  lemma SlotBytes(c: Limits, now: nat, slot: Slot)
    ensures Accounted(SweptSlot(c, now, slot)) + FreedBySweep(c, now, slot) == Accounted(slot)
    ensures Pending(SweptSlot(c, now, slot)) == Pending(slot)
    ensures Entries(SweptSlot(c, now, slot)) <= Entries(slot)
  {
  }

  lemma SweepSafe(c: Limits, s: Store, next: Option<Upload>)
    requires c.maxBytes < U64_MAX && Safe(c, s) && s.lock.Unlocked?
    ensures Safe(c, Sweep(c, s, next))
    ensures Freed(c, s.now, s.slots) <= s.held
  {
    hide Sum;
    SweepBytes(c, s.now, s.slots);
  }

  // ---- one workbook ----

  lemma SetBookSums(s: Store, i: nat, b: Book)
    requires IsOpen(s, i)
    ensures var t := SetBook(s, i, b);
            && Sum(Accounted, t.slots) + Accounted(s.slots[i]) == Sum(Accounted, s.slots) + Accounted(Open(b))
            && Sum(Pending, t.slots) == Sum(Pending, s.slots)
            && Sum(Entries, t.slots) + Entries(s.slots[i]) == Sum(Entries, s.slots) + Entries(Open(b))
  {
    SumUpdate(Accounted, s.slots, i, Open(b));
    SumUpdate(Pending, s.slots, i, Open(b));
    SumUpdate(Entries, s.slots, i, Open(b));
  }

  /** What a step does to the charges of the workbook it concerns. */
  function ChargesAdded(c: Limits, s: Store, a: Step): int
    requires Enabled(c, s, a) && OnBook(a)
  {
    if a.ChargeReader? && Charged(c, s, s.slots[a.i].book).Some? then 1
    else if a.GiveCharge? then -1
    else 0
  }

  lemma CheckoutBook(b: Book)
    requires BookOk(b) && b.free != []
    ensures |b.free| == 1 && b.free[..0] == []
    ensures Firsts(b.free) == Firsts([b.free[0]]) && Furthers(b.free) == Furthers([b.free[0]])
  {
    assert b.free == [b.free[0]];
  }

  lemma CountReaders()
    ensures Firsts([]) == 0 == Furthers([])
    ensures Firsts([First]) == 1 == Furthers([Further])
    ensures Firsts([Further]) == 0 == Furthers([First])
  {
  }

  /** A pool that holds no uncharged reader has room for the one coming back. */
  lemma ReturnBook(b: Book, reader: Reader)
    requires BookOk(b) && (if reader.First? then b.firstsOut else b.furthersOut) > 0
    ensures var p := Park(b.free, reader);
            && Firsts(p.free) == Firsts(b.free) + Firsts([reader])
            && Furthers(p.free) + Furthers(Dropped(p)) == Furthers(b.free) + Furthers([reader])
            && |p.free| <= MAX_POOLED_READERS
  {
    ParkConserves(b.free, reader);
    CountReaders();
    if b.free != [] {
      CheckoutBook(b);
    }
  }

  /** A book as it should be after a step that adds `added` charges. */
  ghost predicate BookKept(was: Book, post: Book, added: int) {
    && BookOk(post)
    && Charges(post) == Charges(was) + added
    && post.registered == was.registered && post.heldBytes == was.heldBytes && post.readerBytes == was.readerBytes
  }

  lemma ReturnKeepsBook(c: Limits, s: Store, a: Step)
    requires Enabled(c, s, a) && a.Return? && BookOk(s.slots[a.i].book)
    ensures BookKept(s.slots[a.i].book, NextBook(c, s, a), 0)
  {
    hide Firsts, Furthers, Park, Dropped;
    CountReaders();
    ReturnBook(s.slots[a.i].book, a.reader);
  }

  lemma CheckoutKeepsBook(c: Limits, s: Store, a: Step)
    requires Enabled(c, s, a) && a.Checkout? && BookOk(s.slots[a.i].book)
    ensures BookKept(s.slots[a.i].book, NextBook(c, s, a), 0)
  {
    hide Firsts, Furthers;
    CountReaders();
    if s.slots[a.i].book.free != [] {
      CheckoutBook(s.slots[a.i].book);
    }
  }

  lemma HandleKeepsBook(c: Limits, s: Store, a: Step)
    requires Enabled(c, s, a) && (a.Fetch? || a.Touch? || a.Release? || a.DropPool?) && BookOk(s.slots[a.i].book)
    ensures BookKept(s.slots[a.i].book, NextBook(c, s, a), 0)
  {
    hide Firsts, Furthers;
    CountReaders();
  }

  lemma ChargeKeepsBook(c: Limits, s: Store, a: Step)
    requires Enabled(c, s, a) && (a.ChargeReader? || a.OpenReader? || a.GiveCharge?) && BookOk(s.slots[a.i].book)
    ensures BookKept(s.slots[a.i].book, NextBook(c, s, a), ChargesAdded(c, s, a))
  {
    hide Firsts, Furthers, Charged;
  }

  lemma StepKeepsBook(c: Limits, s: Store, a: Step)
    requires Enabled(c, s, a) && OnBook(a) && BookOk(s.slots[a.i].book)
    ensures BookKept(s.slots[a.i].book, NextBook(c, s, a), ChargesAdded(c, s, a))
  {
    hide Enabled, NextBook, BookOk, BookKept, Charged;
    if a.Return? {
      ReturnKeepsBook(c, s, a);
    } else if a.Checkout? {
      CheckoutKeepsBook(c, s, a);
    } else if a.Fetch? || a.Touch? || a.Release? || a.DropPool? {
      HandleKeepsBook(c, s, a);
    } else {
      ChargeKeepsBook(c, s, a);
    }
  }

  lemma BytesOfCharges(was: Book, post: Book, added: int)
    requires post.registered == was.registered && post.heldBytes == was.heldBytes
    requires post.readerBytes == was.readerBytes && Charges(post) == Charges(was) + added
    ensures Accounted(Open(post)) == Accounted(Open(was)) + added * was.readerBytes
  {
    assert (Charges(was) + added) * was.readerBytes
        == Charges(was) * was.readerBytes + added * was.readerBytes;
  }

  /** The counter moves by exactly the charges that come and go. */
  lemma HeldChanges(c: Limits, s: Store, a: Step)
    requires c.maxBytes < U64_MAX && s.held <= c.maxBytes && Enabled(c, s, a) && OnBook(a)
    requires a.GiveCharge? ==> s.slots[a.i].book.readerBytes <= s.held
    ensures NextHeld(c, s, a) == s.held + ChargesAdded(c, s, a) * s.slots[a.i].book.readerBytes
    ensures NextHeld(c, s, a) <= c.maxBytes
  {
  }

  lemma GivenIsHeld(c: Limits, s: Store, a: Step)
    requires Safe(c, s) && Enabled(c, s, a) && a.GiveCharge?
    ensures s.slots[a.i].book.readerBytes <= s.held
  {
    hide Sum;
    SumAtLeast(Accounted, s.slots, a.i);
  }

  lemma OnBookSafe(c: Limits, s: Store, a: Step)
    requires c.maxBytes < U64_MAX && Safe(c, s) && Enabled(c, s, a) && OnBook(a)
    ensures Safe(c, Next(c, s, a))
    ensures a.GiveCharge? ==> s.slots[a.i].book.readerBytes <= s.held
  {
    hide Sum, Accounted, Charges, ChargesAdded, NextBook, NextHeld, BookOk;
    var b := s.slots[a.i].book;
    var n := NextBook(c, s, a);
    if a.GiveCharge? {
      GivenIsHeld(c, s, a);
    }
    StepKeepsBook(c, s, a);
    SetBookSums(s, a.i, n);
    BytesOfCharges(b, n, ChargesAdded(c, s, a));
    HeldChanges(c, s, a);
  }

  // ---- the registry ----

  lemma PendingRoom(c: Limits, s: Store, i: nat, slot: Slot)
    requires Safe(c, s) && i < |s.slots| && s.slots[i].Reserved? && !slot.Reserved?
    ensures var slots := s.slots[i := slot];
            && s.pending == OneFewer(s.pending) + 1
            && Sum(Pending, slots) == OneFewer(s.pending)
            && Sum(Accounted, slots) + s.slots[i].bytes == Sum(Accounted, s.slots) + Accounted(slot)
            && Sum(Entries, slots) == Sum(Entries, s.slots) + Entries(slot)
  {
    SumUpdate(Accounted, s.slots, i, slot);
    SumUpdate(Pending, s.slots, i, slot);
    SumUpdate(Entries, s.slots, i, slot);
    SumAtLeast(Pending, s.slots, i);
  }

  lemma NewBookOk(room: Slot, stamp: nat)
    requires room.Reserved?
    ensures BookOk(NewBook(room, stamp)) && Charges(NewBook(room, stamp)) == 0
    ensures Accounted(Open(NewBook(room, stamp))) == room.bytes
    ensures Entries(Open(NewBook(room, stamp))) == 1
  {
    CountReaders();
    assert NewBook(room, stamp).free == [First];
  }

  lemma RegisterSafe(c: Limits, s: Store, a: Step)
    requires Safe(c, s) && Enabled(c, s, a) && a.Register?
    ensures Safe(c, Next(c, s, a))
  {
    hide Sum, Accounted, BookOk, NewBook;
    NewBookOk(s.slots[a.i], a.stamp);
    PendingRoom(c, s, a.i, Open(NewBook(s.slots[a.i], a.stamp)));
  }

  lemma AbandonSafe(c: Limits, s: Store, a: Step)
    requires Safe(c, s) && Enabled(c, s, a) && a.Abandon?
    ensures Safe(c, Next(c, s, a))
  {
    hide Sum, Accounted, BookOk;
    PendingRoom(c, s, a.i, Abandoned);
    AbandonedBytes();
  }

  lemma AbandonedBytes()
    ensures Accounted(Abandoned) == 0
  {
  }

  lemma CloseSafe(c: Limits, s: Store, a: Step)
    requires Safe(c, s) && Enabled(c, s, a) && a.Close?
    ensures Safe(c, Next(c, s, a))
  {
    hide Sum, Firsts, Furthers;
    var b := s.slots[a.i].book;
    SetBookSums(s, a.i, b.(registered := false));
  }

  lemma TakeRoomSafe(c: Limits, s: Store, a: Step)
    requires c.maxBytes < U64_MAX && Safe(c, s) && Enabled(c, s, a) && a.TakeRoom?
    ensures Safe(c, Next(c, s, a))
  {
    hide Sum, BookOk;
    var room := Reserved(s.lock.upload.bytes, s.lock.upload.readerBytes);
    SumAppend(Accounted, s.slots, [room]);
    SumAppend(Pending, s.slots, [room]);
    SumAppend(Entries, s.slots, [room]);
    SumOne(Accounted, room);
    SumOne(Pending, room);
    SumOne(Entries, room);
  }

  lemma LockedSafe(c: Limits, s: Store, a: Step)
    requires Safe(c, s) && Enabled(c, s, a) && (a.Tick? || a.GiveFreed? || a.Fit?)
    ensures Safe(c, Next(c, s, a))
  {
    hide Sum, BookOk;
  }

  lemma SweepingSafe(c: Limits, s: Store, a: Step)
    requires c.maxBytes < U64_MAX && Safe(c, s) && Enabled(c, s, a) && (a.Reserve? || a.Evict?)
    ensures Safe(c, Next(c, s, a))
  {
    hide Safe, Sweep;
    SweepSafe(c, s, if a.Evict? then None else Some(Upload(SatAdd(a.length, a.inflated), a.inflated)));
  }

  lemma {:induction false} StepSafe(c: Limits, s: Store, a: Step)
    requires c.maxBytes < U64_MAX && Safe(c, s) && Enabled(c, s, a)
    ensures Safe(c, Next(c, s, a))
  {
    hide Safe, Next, Enabled;
    if a.Register? {
      RegisterSafe(c, s, a);
    } else if a.Abandon? {
      AbandonSafe(c, s, a);
    } else if a.Close? {
      CloseSafe(c, s, a);
    } else if a.TakeRoom? {
      TakeRoomSafe(c, s, a);
    } else if a.Reserve? || a.Evict? {
      SweepingSafe(c, s, a);
    } else if OnBook(a) {
      OnBookSafe(c, s, a);
    } else {
      LockedSafe(c, s, a);
    }
  }

  // ---- every reachable state ----

  /** However the requests interleave, a store that starts empty stays safe. */
  lemma {:induction false} RunSafe(c: Limits, s: Store, steps: seq<Step>)
    requires c.maxBytes < U64_MAX && Safe(c, s) && Runs(c, s, steps)
    ensures Safe(c, After(c, s, steps))
    decreases |steps|
  {
    hide Safe, Next, Enabled;
    if steps == [] {
    } else {
      StepSafe(c, s, steps[0]);
      RunSafe(c, Next(c, s, steps[0]), steps[1..]);
    }
  }

  lemma {:induction false} EveryReachableStateIsSafe(c: Limits, steps: seq<Step>)
    requires c.maxBytes < U64_MAX && Runs(c, EMPTY, steps)
    ensures Safe(c, After(c, EMPTY, steps))
  {
    hide Next, Enabled;
    RunSafe(c, EMPTY, steps);
  }

  lemma GivingIsExact(c: Limits, s: Store, a: Step)
    requires c.maxBytes < U64_MAX && Safe(c, s) && Enabled(c, s, a)
    ensures a.GiveFreed? ==> Next(c, s, a).held + s.lock.freed == s.held
    ensures a.GiveCharge? ==> Next(c, s, a).held + s.slots[a.i].book.readerBytes == s.held
  {
    hide Sum, Accounted, BooksOk, NextBook;
    if a.GiveCharge? {
      GivenIsHeld(c, s, a);
    }
  }

  lemma TakingIsExact(c: Limits, s: Store, a: Step)
    requires c.maxBytes < U64_MAX && s.held <= c.maxBytes && Enabled(c, s, a)
    ensures var t := Next(c, s, a);
            && (a.TakeRoom? ==> t.held == s.held + if |t.slots| > |s.slots| then s.lock.upload.bytes else 0)
            && (a.TakeRoom? ==> (|t.slots| > |s.slots| <==> s.held + s.lock.upload.bytes <= c.maxBytes))
            && (a.ChargeReader? ==>
                  var b := s.slots[a.i].book;
                  && t.held == s.held + (if Charged(c, s, b).Some? then b.readerBytes else 0)
                  && (Charged(c, s, b).Some? <==> s.held + b.readerBytes <= c.maxBytes))
  {
    hide Sum, Sweep;
  }

  lemma FittingIsExact(c: Limits, s: Store)
    requires c.maxBytes < U64_MAX && s.held <= c.maxBytes && Enabled(c, s, Fit)
    ensures Next(c, s, Fit).lock.Charging? <==>
            && Sum(Entries, s.slots) + s.pending < c.maxOpen
            && s.held + s.lock.upload.bytes <= c.maxBytes
  {
    hide Sum;
  }

  lemma CountingIsExact(c: Limits, s: Store, a: Step)
    requires c.maxBytes < U64_MAX && Safe(c, s) && Enabled(c, s, a)
    ensures a.Register? || a.Abandon? ==> Next(c, s, a).pending + 1 == s.pending
    ensures a.Reserve? || a.Evict? ==>
              Next(c, s, a).lock.freed == if c.idleTtl == 0 then 0 else Freed(c, s.now, s.slots)
  {
    hide Sum, Accounted, BookOk, NewBook, SweptSlots, Freed;
    if a.Register? || a.Abandon? {
      SumAtLeast(Pending, s.slots, a.i);
    } else if a.Reserve? || a.Evict? {
      SweepSafe(c, s, None);
    }
  }

  /** No counter ever wraps and no `give` ever saturates: every change of the
      budget and of the pending count is the exact one. */
  lemma {:induction false} EveryChangeIsExact(c: Limits, s: Store, a: Step)
    requires c.maxBytes < U64_MAX && Safe(c, s) && Enabled(c, s, a)
    ensures var t := Next(c, s, a);
            && (a.GiveFreed? ==> t.held + s.lock.freed == s.held)
            && (a.GiveCharge? ==> t.held + s.slots[a.i].book.readerBytes == s.held)
            && (a.TakeRoom? ==> t.held == s.held + if |t.slots| > |s.slots| then s.lock.upload.bytes else 0)
            && (a.TakeRoom? ==> (|t.slots| > |s.slots| <==> s.held + s.lock.upload.bytes <= c.maxBytes))
            && (a.ChargeReader? ==>
                  var b := s.slots[a.i].book;
                  && t.held == s.held + (if Charged(c, s, b).Some? then b.readerBytes else 0)
                  && (Charged(c, s, b).Some? <==> s.held + b.readerBytes <= c.maxBytes))
            && (a.Fit? ==> (t.lock.Charging? <==>
                              && Sum(Entries, s.slots) + s.pending < c.maxOpen
                              && s.held + s.lock.upload.bytes <= c.maxBytes))
            && (a.Register? || a.Abandon? ==> t.pending + 1 == s.pending)
            && (a.Reserve? || a.Evict? ==> t.lock.freed == if c.idleTtl == 0 then 0 else Freed(c, s.now, s.slots))
  {
    assert s.held <= c.maxBytes;
    GivingIsExact(c, s, a);
    TakingIsExact(c, s, a);
    if a.Fit? {
      FittingIsExact(c, s);
    }
    CountingIsExact(c, s, a);
    hide Safe, Enabled, Next, Sum, Charged, Freed;
  }

  /** A workbook's first reader lives as long as the workbook, so the bytes
      charged for it always have a reader to cover; and while no reader of it
      is checked out none of its charges is live, and the next read finds a
      parked reader and is never refused. */
  lemma {:induction false} FirstReaderStays(c: Limits, s: Store, i: nat)
    requires Safe(c, s) && IsOpen(s, i)
    ensures var b := s.slots[i].book;
            && (b.registered || Busy(b) ==> Firsts(b.free) + b.firstsOut == 1)
            && (b.firstsOut + b.furthersOut + b.opening + b.dropping == 0 ==> Charges(b) == 0)
            && (b.firstsOut == 0 && b.handles > 0 ==>
                  && b.free == [First] && Enabled(c, s, Checkout(i))
                  && NextBook(c, s, Checkout(i)).missed == b.missed)
  {
    hide Sum;
    var b := s.slots[i].book;
    if b.free != [] {
      CheckoutBook(b);
      CountReaders();
    }
  }

  /** Nothing leaks: once every workbook is closed and every reader is back,
      the budget holds nothing. */
  lemma {:induction false} NothingLeaks(c: Limits, s: Store)
    requires Safe(c, s) && s.lock.Unlocked?
    requires forall i :: 0 <= i < |s.slots| ==> AtRest(s.slots[i])
    ensures s.held == 0 && s.pending == 0
  {
    AllAtRest(c, s.slots);
  }

  predicate AtRest(slot: Slot) {
    match slot
    case Reserved(_, _) => false
    case Abandoned => true
    case Open(b) => !b.registered && b.firstsOut + b.furthersOut + b.opening + b.dropping == 0
  }

  lemma {:induction false} AllAtRest(c: Limits, slots: seq<Slot>)
    requires BooksOk(slots)
    requires forall i :: 0 <= i < |slots| ==> AtRest(slots[i])
    ensures Sum(Accounted, slots) == 0 == Sum(Pending, slots)
  {
    if slots == [] {
    } else {
      var n := |slots| - 1;
      assert forall i :: 0 <= i < n ==> slots[..n][i] == slots[i];
      AllAtRest(c, slots[..n]);
    }
  }

  // ---- why the bytes are taken and not only checked ----

  /** What the budget is charged for readers over some steps, less what it is
      given back. */
  function ChargedOver(c: Limits, s: Store, steps: seq<Step>): int
    requires Runs(c, s, steps)
    decreases |steps|
  {
    if steps == [] then 0
    else
      var a := steps[0];
      (if OnBook(a) then ChargesAdded(c, s, a) * s.slots[a.i].book.readerBytes else 0)
      + ChargedOver(c, Next(c, s, a), steps[1..])
  }

  lemma WhileCharging(c: Limits, s: Store, a: Step)
    requires c.maxBytes < U64_MAX && Safe(c, s) && s.lock.Charging? && Enabled(c, s, a) && !a.TakeRoom?
    ensures Safe(c, Next(c, s, a)) && Next(c, s, a).lock == s.lock
    ensures Next(c, s, a).held ==
            s.held + if OnBook(a) then ChargesAdded(c, s, a) * s.slots[a.i].book.readerBytes else 0
  {
    StepSafe(c, s, a);
    hide Sum, BooksOk, NextBook, NextHeld, ChargesAdded;
    if OnBook(a) {
      if a.GiveCharge? {
        GivenIsHeld(c, s, a);
      }
      HeldChanges(c, s, a);
    }
  }

  /** The registry's lock keeps no reader from being charged. */
  lemma {:induction false} RunWhileCharging(c: Limits, s: Store, steps: seq<Step>)
    requires c.maxBytes < U64_MAX && Safe(c, s) && s.lock.Charging? && Runs(c, s, steps)
    requires forall k :: 0 <= k < |steps| ==> !steps[k].TakeRoom?
    ensures var t := After(c, s, steps);
            Safe(c, t) && t.lock == s.lock && t.held == s.held + ChargedOver(c, s, steps)
    decreases |steps|
  {
    hide Safe, Next, Enabled, ChargesAdded;
    if steps == [] {
    } else {
      WhileCharging(c, s, steps[0]);
      RunWhileCharging(c, Next(c, s, steps[0]), steps[1..]);
    }
  }

  /** An upload that fits when it is checked is refused after all exactly when
      the readers charged before the bytes are taken, less the charges given
      back, have left it no room. */
  lemma {:induction false} FitsIsNotEnough(c: Limits, s: Store, steps: seq<Step>)
    requires c.maxBytes < U64_MAX && Safe(c, s) && s.lock.Fitting?
    requires Fits(c, s, s.lock.upload.bytes).None? && Runs(c, Next(c, s, Fit), steps)
    requires forall k :: 0 <= k < |steps| ==> !steps[k].TakeRoom?
    ensures var t := After(c, Next(c, s, Fit), steps);
            && Enabled(c, t, TakeRoom)
            && (|Next(c, t, TakeRoom).slots| > |t.slots| <==>
                s.held + ChargedOver(c, Next(c, s, Fit), steps) + s.lock.upload.bytes <= c.maxBytes)
  {
    StepSafe(c, s, Fit);
    var checked := Next(c, s, Fit);
    assert checked == s.(lock := Charging(s.lock.upload));
    hide Safe, Sum, Fits, Runs, After, ChargedOver;
    RunWhileCharging(c, checked, steps);
    EveryChangeIsExact(c, After(c, checked, steps), TakeRoom);
  }

  /** One reader is enough: a charge of the whole room left, taken between the
      check and the taking, has the upload refused. */
  lemma {:induction false} OneChargeIsEnough(c: Limits, s: Store, i: nat)
    requires c.maxBytes < U64_MAX && Safe(c, s) && s.lock.Fitting?
    requires Fits(c, s, s.lock.upload.bytes).None? && s.lock.upload.bytes > 0
    requires IsOpen(s, i) && s.slots[i].book.missed > 0 && s.held + s.slots[i].book.readerBytes == c.maxBytes
    ensures Runs(c, Next(c, s, Fit), [ChargeReader(i)])
    ensures var t := After(c, Next(c, s, Fit), [ChargeReader(i)]);
            Enabled(c, t, TakeRoom) && |Next(c, t, TakeRoom).slots| == |t.slots|
  {
    hide Safe, Sum, Fits;
    var checked := Next(c, s, Fit);
    assert [ChargeReader(i)][1..] == [];
    FitsIsNotEnough(c, s, [ChargeReader(i)]);
    assert ChargedOver(c, Next(c, checked, ChargeReader(i)), []) == 0;
  }
}
