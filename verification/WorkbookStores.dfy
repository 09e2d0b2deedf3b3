/** The store as one request at a time runs it (`src/store.rs`): each public
    operation, left alone, is a fixed list of the protocol's steps. */
module WorkbookStores {
  import opened Sequences
  import opened Budgets
  import opened ReaderPools
  import opened StoreProtocol
  import opened StoreSafety

  /** What `reserve` comes to when nothing interleaves. */
  function AfterReserve(c: Limits, s: Store, length: nat, inflated: nat): Store
    requires s.lock.Unlocked? && length <= U64_MAX && inflated <= U64_MAX
  {
    var swept := Next(c, Next(c, s, Reserve(length, inflated)), GiveFreed);
    var checked := Next(c, swept, Fit);
    if checked.lock.Charging? then Next(c, checked, TakeRoom) else checked
  }

  function AfterSweep(c: Limits, s: Store): Store
    requires s.lock.Unlocked?
  {
    Next(c, Next(c, s, Evict), GiveFreed)
  }

  /** The refusal `reserve` answers with when nothing interleaves. */
  function ReserveRefusal(c: Limits, s: Store, bytes: nat): Option<Refusal>
    requires s.lock.Unlocked?
  {
    Fits(c, AfterSweep(c, s), bytes)
  }

  /** A reservation sweeps, and takes room exactly when the upload fits beside
      what the sweep left. */
  lemma {:induction false} ReserveAlone(c: Limits, s: Store, length: nat, inflated: nat)
    requires c.maxBytes < U64_MAX && Safe(c, s) && s.lock.Unlocked? && length <= U64_MAX && inflated <= U64_MAX
    ensures var bytes := SatAdd(length, inflated);
            var swept := AfterSweep(c, s);
            AfterReserve(c, s, length, inflated) ==
            if Fits(c, swept, bytes).None? then
              swept.(slots := swept.slots + [Reserved(bytes, inflated)], pending := swept.pending + 1,
                     held := swept.held + bytes)
            else swept
  {
    hide Sum, Safe, Sweep;
    var up := Upload(SatAdd(length, inflated), inflated);
    SweepGoesOn(c, s, Some(up));
    SweepGoesOn(c, s, None);
    StepSafe(c, s, Reserve(length, inflated));
    var freeing := Next(c, s, Reserve(length, inflated));
    StepSafe(c, freeing, GiveFreed);
    var swept := Next(c, freeing, GiveFreed);
    assert swept == AfterSweep(c, s).(lock := Fitting(up));
    StepSafe(c, swept, Fit);
    if Fits(c, swept, up.bytes).None? {
      TakeRoomAlone(c, swept, up);
    }
  }

  lemma TakeRoomAlone(c: Limits, swept: Store, up: Upload)
    requires c.maxBytes < U64_MAX && swept.lock == Fitting(up) && Fits(c, swept, up.bytes).None?
    requires swept.held <= c.maxBytes
    ensures Next(c, swept, Fit) == swept.(lock := Charging(up))
    ensures Next(c, swept.(lock := Charging(up)), TakeRoom) ==
            swept.(lock := Unlocked, slots := swept.slots + [Reserved(up.bytes, up.readerBytes)],
                   pending := swept.pending + 1, held := swept.held + up.bytes)
  {
    hide Sum;
  }

  lemma SweepGoesOn(c: Limits, s: Store, next: Option<Upload>)
    requires s.lock.Unlocked?
    ensures Sweep(c, s, next).lock.Giving? && Sweep(c, s, next).lock.next == next
    ensures Sweep(c, s, next) == Sweep(c, s, None).(lock := Giving(Sweep(c, s, None).lock.freed, next))
  {
  }

  // ---- refusals ----

  /** The workbooks registered among `slots`. */
  function Registered(slots: seq<Slot>): set<nat> {
    set i: nat | i < |slots| && slots[i].Open? && slots[i].book.registered
  }

  lemma {:induction false} EntriesAre(slots: seq<Slot>)
    ensures Sum(Entries, slots) == |Registered(slots)|
  {
    if slots == [] {
      assert Registered(slots) == {};
    } else {
      var n := |slots| - 1;
      EntriesAre(slots[..n]);
      assert Registered(slots) == Registered(slots[..n]) + if Entries(slots[n]) == 1 then {n} else {};
    }
  }

  /** What stands in the way of `bytes` more, and the numbers it is refused
      with: the workbooks open or opening are as many as may be, or what is
      needed and what is held are more than may be held. */
  ghost predicate Refuses(c: Limits, s: Store, bytes: nat, refusal: Option<Refusal>) {
    match refusal
    case None => |Registered(s.slots)| + s.pending < c.maxOpen && bytes + s.held <= c.maxBytes
    case Some(OpenWorkbooks(max)) => |Registered(s.slots)| + s.pending >= c.maxOpen && max == c.maxOpen
    case Some(StoreBytes(needed, held, max)) =>
      && |Registered(s.slots)| + s.pending < c.maxOpen && bytes + s.held > c.maxBytes
      && needed == bytes && held == s.held && max == c.maxBytes
  }

  lemma {:induction false} FitsNames(c: Limits, s: Store, bytes: nat)
    requires c.maxBytes < U64_MAX
    ensures Refuses(c, s, bytes, Fits(c, s, bytes))
  {
    EntriesAre(s.slots);
    hide Sum;
  }

  /** A sweep only ever makes room, so what `admits` says without one still
      holds after it. */
  lemma {:induction false} SweepMakesRoom(c: Limits, s: Store, bytes: nat)
    requires c.maxBytes < U64_MAX && Safe(c, s) && s.lock.Unlocked?
    ensures Fits(c, s, bytes).None? ==> Fits(c, AfterSweep(c, s), bytes).None?
  {
    hide Sum;
    SweepBytes(c, s.now, s.slots);
  }

  lemma SweptIsSafe(c: Limits, s: Store)
    requires c.maxBytes < U64_MAX && Safe(c, s) && s.lock.Unlocked?
    ensures Safe(c, AfterSweep(c, s)) && AfterSweep(c, s).lock.Unlocked?
    ensures if c.idleTtl == 0 then AfterSweep(c, s) == s
            else
              && Freed(c, s.now, s.slots) <= s.held
              && AfterSweep(c, s) == s.(slots := SweptSlots(c, s.now, s.slots), lastSweep := s.now,
                                    held := s.held - Freed(c, s.now, s.slots))
  {
    hide Safe, Sum, SweptSlots, Freed;
    StepSafe(c, s, Evict);
    StepSafe(c, Next(c, s, Evict), GiveFreed);
    SweepSafe(c, s, None);
    HeldFits(c, s);
  }

  /** Being safe says nothing about the time. */
  lemma SafeAnyTime(c: Limits, s: Store, now: nat, lastSweep: nat)
    requires Safe(c, s)
    ensures Safe(c, s.(now := now, lastSweep := lastSweep))
  {
    hide Sum;
  }

  lemma FreedNone(c: Limits, now: nat)
    ensures Freed(c, now, []) == 0
  {
  }

  lemma HeldFits(c: Limits, s: Store)
    requires Safe(c, s)
    ensures s.held <= c.maxBytes
  {
  }

  lemma {:induction false} FreedGrows(c: Limits, now: nat, slots: seq<Slot>, i: nat)
    requires i < |slots|
    ensures Freed(c, now, slots[..i + 1]) == Freed(c, now, slots[..i]) + FreedBySweep(c, now, slots[i])
    ensures Freed(c, now, slots[..i + 1]) <= Freed(c, now, slots)
    decreases |slots|
  {
    assert slots[..i + 1][..i] == slots[..i];
    var n := |slots| - 1;
    if i == n {
      assert slots[..i + 1] == slots;
    } else {
      FreedGrows(c, now, slots[..n], i);
      assert slots[..n][..i + 1] == slots[..i + 1];
      assert slots[..n][..i] == slots[..i];
    }
  }

  /** How a read that asks for a reader comes out. */
  datatype Borrowed = Given(reader: Reader) | Full(needed: nat, held: nat, max: nat) | Unreadable

  /** What `WorkbookEntry::reader` comes to when nothing interleaves. */
  function AfterRead(c: Limits, s: Store, i: nat, parsed: bool): Store
    requires Enabled(c, s, Checkout(i))
  {
    var t := Next(c, s, Checkout(i));
    if s.slots[i].book.free != [] then t
    else
      var u := Next(c, t, ChargeReader(i));
      if Charged(c, t, t.slots[i].book).None? then u
      else
        var v := Next(c, u, OpenReader(i, parsed));
        if parsed then v else Next(c, v, GiveCharge(i))
  }

  /** What dropping a `PooledReader` comes to when nothing interleaves. */
  function AfterReturn(c: Limits, s: Store, i: nat, reader: Reader): Store
    requires Enabled(c, s, Return(i, reader))
  {
    var t := Next(c, s, Return(i, reader));
    if t.slots[i].book.dropping == s.slots[i].book.dropping then t else Next(c, t, GiveCharge(i))
  }

  lemma ReserveIsSafe(c: Limits, s: Store, length: nat, inflated: nat)
    requires c.maxBytes < U64_MAX && Safe(c, s) && s.lock.Unlocked? && length <= U64_MAX && inflated <= U64_MAX
    ensures Safe(c, AfterReserve(c, s, length, inflated))
  {
    hide Safe, Sum, Sweep, Fits;
    var freeing := Next(c, s, Reserve(length, inflated));
    SweepGoesOn(c, s, Some(Upload(SatAdd(length, inflated), inflated)));
    StepSafe(c, s, Reserve(length, inflated));
    StepSafe(c, freeing, GiveFreed);
    var swept := Next(c, freeing, GiveFreed);
    StepSafe(c, swept, Fit);
    if Next(c, swept, Fit).lock.Charging? {
      StepSafe(c, Next(c, swept, Fit), TakeRoom);
    }
  }

  /** Closing a workbook, or giving up an open, returns its bytes. */
  function AfterRemove(c: Limits, s: Store, a: Step): Store
    requires Enabled(c, s, a) && (a.Close? || a.Abandon?)
  {
    Next(c, Next(c, s, a), GiveFreed)
  }

  lemma RemovedAlone(c: Limits, s: Store, a: Step)
    requires c.maxBytes < U64_MAX && Safe(c, s) && Enabled(c, s, a) && (a.Close? || a.Abandon?)
    ensures var bytes := if a.Close? then s.slots[a.i].book.heldBytes else s.slots[a.i].bytes;
            && Safe(c, AfterRemove(c, s, a))
            && AfterRemove(c, s, a).held + bytes == s.held
            && (a.Abandon? ==> AfterRemove(c, s, a).pending + 1 == s.pending)
  {
    hide Safe, Sum;
    StepSafe(c, s, a);
    EveryChangeIsExact(c, s, a);
    StepSafe(c, Next(c, s, a), GiveFreed);
    EveryChangeIsExact(c, Next(c, s, a), GiveFreed);
  }

  /** The workbook once the reader parked last is checked out. */
  function Lent(b: Book): Book
    requires b.free != []
  {
    var last := |b.free| - 1;
    if b.free[last].First? then b.(free := b.free[..last], firstsOut := b.firstsOut + 1)
    else b.(free := b.free[..last], furthersOut := b.furthersOut + 1)
  }

  /** A read alone borrows the parked reader; finding none, it opens a further
      one if its charge fits; and if it gets no reader it changes nothing. */
  lemma {:induction false} ReadAlone(c: Limits, s: Store, i: nat, parsed: bool)
    requires c.maxBytes < U64_MAX && Safe(c, s) && Enabled(c, s, Checkout(i))
    ensures var b := s.slots[i].book;
            AfterRead(c, s, i, parsed) ==
            if b.free != [] then SetBook(s, i, Lent(b))
            else if s.held + b.readerBytes > c.maxBytes || !parsed then s
            else SetBook(s, i, b.(furthersOut := b.furthersOut + 1)).(held := s.held + b.readerBytes)
  {
    hide Sum, BookOk;
    if s.slots[i].book.free == [] {
      ReadFurther(c, s, i, parsed);
    }
  }

  lemma ReadFurther(c: Limits, s: Store, i: nat, parsed: bool)
    requires c.maxBytes < U64_MAX && s.held <= c.maxBytes && Enabled(c, s, Checkout(i)) && s.slots[i].book.free == []
    ensures var b := s.slots[i].book;
            AfterRead(c, s, i, parsed) ==
            if s.held + b.readerBytes > c.maxBytes || !parsed then s
            else SetBook(s, i, b.(furthersOut := b.furthersOut + 1)).(held := s.held + b.readerBytes)
  {
    hide Sum, Sweep, Park, Dropped, Firsts, Furthers;
    var b := s.slots[i].book;
    var t := Next(c, s, Checkout(i));
    assert t == SetBook(s, i, b.(missed := b.missed + 1));
    var u := Next(c, t, ChargeReader(i));
    if s.held + b.readerBytes > c.maxBytes {
      assert u == SetBook(s, i, b);
      assert s.slots[i := s.slots[i]] == s.slots;
    } else {
      assert u == SetBook(s, i, b.(opening := b.opening + 1)).(held := s.held + b.readerBytes);
      OpeningEnds(c, s, u, i, b, parsed);
    }
  }

  lemma OpeningEnds(c: Limits, s: Store, u: Store, i: nat, b: Book, parsed: bool)
    requires IsOpen(s, i) && s.slots[i].book == b
    requires u == SetBook(s, i, b.(opening := b.opening + 1)).(held := s.held + b.readerBytes)
    ensures var v := Next(c, u, OpenReader(i, parsed));
            if parsed then v == SetBook(s, i, b.(furthersOut := b.furthersOut + 1)).(held := s.held + b.readerBytes)
            else Enabled(c, v, GiveCharge(i)) && Next(c, v, GiveCharge(i)) == s
  {
    assert s.slots[i := s.slots[i]] == s.slots;
  }

  lemma ReadIsSafe(c: Limits, s: Store, i: nat, parsed: bool)
    requires c.maxBytes < U64_MAX && Safe(c, s) && Enabled(c, s, Checkout(i))
    ensures Safe(c, AfterRead(c, s, i, parsed))
  {
    hide Safe, Sum, Charged, NextHeld, Park, Dropped;
    var t := Next(c, s, Checkout(i));
    StepSafe(c, s, Checkout(i));
    if s.slots[i].book.free == [] {
      var u := Next(c, t, ChargeReader(i));
      StepSafe(c, t, ChargeReader(i));
      if Charged(c, t, t.slots[i].book).Some? {
        StepSafe(c, u, OpenReader(i, parsed));
        if !parsed {
          StepSafe(c, Next(c, u, OpenReader(i, parsed)), GiveCharge(i));
        }
      }
    }
  }

  /** The workbook once `reader` is back, and parked if there is room. */
  function Back(b: Book, reader: Reader): Book
    requires (if reader.First? then b.firstsOut else b.furthersOut) > 0
  {
    b.(free := Park(b.free, reader).free,
       firstsOut := b.firstsOut - Firsts([reader]),
       furthersOut := b.furthersOut - Furthers([reader]))
  }

  /** A reader returned alone costs the budget nothing, and gives a charge back
      exactly when a charged reader is dropped: itself, or one it displaces. */
  lemma {:induction false} ReturnAlone(c: Limits, s: Store, i: nat, reader: Reader)
    requires c.maxBytes < U64_MAX && Safe(c, s) && Enabled(c, s, Return(i, reader))
    ensures var b := s.slots[i].book;
            var freed := if Park(b.free, reader).dropped == Some(Further) then b.readerBytes else 0;
            && freed <= s.held
            && AfterReturn(c, s, i, reader) == SetBook(s, i, Back(b, reader)).(held := s.held - freed)
  {
    hide Sum, Safe, Park;
    CountReaders();
    StepSafe(c, s, Return(i, reader));
    var t := Next(c, s, Return(i, reader));
    if t.slots[i].book.dropping != s.slots[i].book.dropping {
      EveryChangeIsExact(c, t, GiveCharge(i));
    }
  }

  lemma ReturnIsSafe(c: Limits, s: Store, i: nat, reader: Reader)
    requires c.maxBytes < U64_MAX && Safe(c, s) && Enabled(c, s, Return(i, reader))
    ensures Safe(c, AfterReturn(c, s, i, reader))
  {
    hide Safe, Sum, Park, Dropped, Firsts;
    StepSafe(c, s, Return(i, reader));
    var t := Next(c, s, Return(i, reader));
    if t.slots[i].book.dropping != s.slots[i].book.dropping {
      StepSafe(c, t, GiveCharge(i));
    }
  }

  class WorkbookStore {
    const limits: Limits
    const budget: Budget
    var slots: seq<Slot>
    var pending: nat
    /** When the last sweep was, for what is said about timing. */
    ghost var lastSweep: nat

    /** The registry as the protocol sees it when nobody holds the lock. */
    ghost function State(now: nat): Store
      reads this, budget
    {
      Store(slots, pending, budget.held, Unlocked, now, lastSweep)
    }

    ghost predicate Valid()
      reads this, budget
    {
      budget.Valid() && budget.max == limits.maxBytes && Safe(limits, State(0))
    }

    constructor (limits: Limits)
      requires limits.maxBytes < U64_MAX
      ensures Valid() && fresh(budget) && State(0) == EMPTY && this.limits == limits
    {
      this.limits := limits;
      budget := new Budget(limits.maxBytes);
      slots, pending, lastSweep := [], 0, 0;
    }

    /** The refusal the protocol's `Fits` gives for `bytes`; nothing changes. */
    method FitsNow(bytes: nat) returns (refusal: Option<Refusal>)
      requires Valid()
      ensures refusal == Fits(limits, State(0), bytes) && Refuses(limits, State(0), bytes, refusal)
    {
      FitsNames(limits, State(0), bytes);
      if Sum(Entries, slots) + pending >= limits.maxOpen {
        return Some(OpenWorkbooks(limits.maxOpen));
      }
      var held := budget.held;
      if SatAdd(held, bytes) > limits.maxBytes {
        return Some(StoreBytes(bytes, held, limits.maxBytes));
      }
      return None;
    }

    /** One atomic sweep of the protocol; `closed` is the number of workbooks
        it took out of the registry. */
    method Sweep(now: nat) returns (closed: nat)
      requires Valid()
      modifies this, budget
      ensures Valid() && State(now) == AfterSweep(limits, old(State(now)))
      ensures closed + Sum(Entries, slots) == Sum(Entries, old(slots))
    {
      hide Safe, Sum, Freed, AfterSweep, SweptSlots, Entries;
      SafeAnyTime(limits, State(0), now, lastSweep);
      SweptIsSafe(limits, State(now));
      SafeAnyTime(limits, AfterSweep(limits, State(now)), 0, AfterSweep(limits, State(now)).lastSweep);
      if limits.idleTtl == 0 {
        return 0;
      }
      ghost var was := slots;
      var before := Sum(Entries, slots);
      var freed := 0;
      FreedNone(limits, now);
      assert was[..0] == [];
      for i := 0 to |slots|
        invariant unchanged(budget) && |slots| == |was| && pending == old(pending) && lastSweep == old(lastSweep)
        invariant forall k :: 0 <= k < i ==> slots[k] == SweptSlot(limits, now, was[k])
        invariant forall k :: i <= k < |was| ==> slots[k] == was[k]
        invariant freed == Freed(limits, now, was[..i])
      {
        FreedGrows(limits, now, was, i);
        if slots[i].Open? && slots[i].book.registered {
          if Busy(slots[i].book) {
            slots := slots[i := Open(slots[i].book.(lastUsed := now))];
          } else if now - slots[i].book.lastUsed >= limits.idleTtl {
            freed := Wrapped(freed + slots[i].book.heldBytes);
            slots := slots[i := Open(slots[i].book.(registered := false, evictedAt := Some(now)))];
          }
        }
      }
      assert slots == SweptSlots(limits, now, was);
      assert was[..|was|] == was;
      lastSweep := now;
      HeldFits(limits, old(State(now)));
      budget.Give(freed);
      SweepBytes(limits, now, was);
      closed := before - Sum(Entries, slots);
    }

    /** The answer a reservation would get, and its sweep: what already fits
        leaves every workbook where it is. */
    method Admits(bytes: nat, now: nat) returns (refusal: Option<Refusal>)
      requires Valid()
      modifies this, budget
      ensures Valid() && refusal == ReserveRefusal(limits, old(State(now)), bytes)
      ensures State(now) == if old(Fits(limits, State(now), bytes)).None? then old(State(now))
                            else AfterSweep(limits, old(State(now)))
      ensures Refuses(limits, State(now), bytes, refusal)
    {
      hide Safe, Sum, AfterSweep;
      SafeAnyTime(limits, State(0), now, lastSweep);
      SweepMakesRoom(limits, State(now), bytes);
      refusal := FitsNow(bytes);
      if refusal.None? {
        return None;
      }
      var _ := Sweep(now);
      refusal := FitsNow(bytes);
    }

    /** All the protocol's steps of a reservation, one after another: what a
        refusal names is checked once idle workbooks are gone, and otherwise
        `i` is the slot that holds the room. */
    method Reserve(length: nat, inflated: nat, now: nat) returns (refusal: Option<Refusal>, i: nat)
      requires Valid() && length <= U64_MAX && inflated <= U64_MAX
      modifies this, budget
      ensures Valid() && State(now) == AfterReserve(limits, old(State(now)), length, inflated)
      ensures refusal == ReserveRefusal(limits, old(State(now)), SatAdd(length, inflated))
      ensures refusal.None? ==> i < |slots| && slots[i] == Reserved(SatAdd(length, inflated), inflated)
      ensures refusal.Some? ==> Refuses(limits, State(now), SatAdd(length, inflated), refusal)
    {
      hide Safe, Sum, AfterSweep, AfterReserve;
      SafeAnyTime(limits, State(0), now, lastSweep);
      ReserveAlone(limits, State(now), length, inflated);
      ReserveIsSafe(limits, State(now), length, inflated);
      ghost var done := AfterReserve(limits, State(now), length, inflated);
      SafeAnyTime(limits, done, 0, done.lastSweep);
      var bytes := SatAdd(length, inflated);
      i := 0;
      var _ := Sweep(now);
      refusal := FitsNow(bytes);
      if refusal.None? {
        var held := budget.Take(bytes);
        i := |slots|;
        slots, pending := slots + [Reserved(bytes, inflated)], pending + 1;
      }
    }

    /** Register the parsed workbook. */
    method Register(i: nat, stamp: nat, ghost now: nat)
      requires Valid() && Enabled(limits, State(now), StoreProtocol.Register(i, stamp))
      modifies this
      ensures Valid() && State(now) == Next(limits, old(State(now)), StoreProtocol.Register(i, stamp))
      ensures pending + 1 == old(pending)
      ensures var room, slot := old(slots)[i], slots[i];
              && slot.Open? && slot.book.heldBytes == room.bytes && slot.book.readerBytes == room.readerBytes
              && slot.book.registered && slot.book.handles == 1 && slot.book.lastUsed == stamp
              && slot.book.free == [First]
    {
      hide Safe, Sum;
      SafeAnyTime(limits, State(0), now, lastSweep);
      StepSafe(limits, State(now), StoreProtocol.Register(i, stamp));
      EveryChangeIsExact(limits, State(now), StoreProtocol.Register(i, stamp));
      SafeAnyTime(limits, Next(limits, State(now), StoreProtocol.Register(i, stamp)), 0, lastSweep);
      slots, pending := slots[i := Open(NewBook(slots[i], stamp))], OneFewer(pending);
    }

    /** A reservation dropped unregistered: the parse failed. */
    method Abandon(i: nat, ghost now: nat)
      requires Valid() && Enabled(limits, State(now), StoreProtocol.Abandon(i))
      modifies this, budget
      ensures Valid() && State(now) == AfterRemove(limits, old(State(now)), StoreProtocol.Abandon(i))
      ensures pending + 1 == old(pending) && budget.held + old(slots)[i].bytes == old(budget.held)
    {
      hide Safe, Sum;
      SafeAnyTime(limits, State(0), now, lastSweep);
      RemovedAlone(limits, State(now), StoreProtocol.Abandon(i));
      SafeAnyTime(limits, AfterRemove(limits, State(now), StoreProtocol.Abandon(i)), 0, lastSweep);
      var bytes := slots[i].bytes;
      slots, pending := slots[i := Abandoned], OneFewer(pending);
      budget.Give(bytes);
    }

    /** A registered workbook goes, and its bytes with it, and nothing else
        changes; `existed` is whether there was one. */
    method Close(i: nat, ghost now: nat) returns (existed: bool)
      requires Valid()
      modifies this, budget
      ensures Valid() && (existed <==> old(IsOpen(State(now), i) && slots[i].book.registered))
      ensures existed ==> State(now) == AfterRemove(limits, old(State(now)), StoreProtocol.Close(i))
      ensures existed ==> budget.held + old(slots)[i].book.heldBytes == old(budget.held)
      ensures !existed ==> State(now) == old(State(now))
    {
      hide Safe, Sum;
      if i >= |slots| || !slots[i].Open? || !slots[i].book.registered {
        return false;
      }
      SafeAnyTime(limits, State(0), now, lastSweep);
      RemovedAlone(limits, State(now), StoreProtocol.Close(i));
      SafeAnyTime(limits, AfterRemove(limits, State(now), StoreProtocol.Close(i)), 0, lastSweep);
      var b := slots[i].book;
      slots := slots[i := Open(b.(registered := false))];
      budget.Give(b.heldBytes);
      return true;
    }

    /** Look up an open workbook, recording the use. */
    method Get(i: nat, now: nat) returns (found: bool)
      requires Valid()
      modifies this
      ensures Valid() && (found <==> old(IsOpen(State(now), i) && slots[i].book.registered))
      ensures found ==>
                State(now) == Next(limits, Next(limits, old(State(now)), Fetch(i)), Touch(i, now))
      ensures !found ==> State(now) == old(State(now))
    {
      hide Safe, Sum;
      if i >= |slots| || !slots[i].Open? || !slots[i].book.registered {
        return false;
      }
      SafeAnyTime(limits, State(0), now, lastSweep);
      ghost var fetched := Next(limits, State(now), Fetch(i));
      StepSafe(limits, State(now), Fetch(i));
      StepSafe(limits, fetched, Touch(i, now));
      SafeAnyTime(limits, Next(limits, fetched, Touch(i, now)), 0, lastSweep);
      var b := slots[i].book;
      slots := slots[i := Open(b.(handles := b.handles + 1, lastUsed := now))];
      assert State(now) == Next(limits, fetched, Touch(i, now));
      return true;
    }

    /** `WorkbookEntry::reader`, for a request that holds a handle. A parked
        reader is reused; a further one is opened if its charge fits. */
    method Read(i: nat, parsed: bool, ghost now: nat) returns (r: Borrowed)
      requires Valid() && Enabled(limits, State(now), Checkout(i))
      modifies this, budget
      ensures Valid() && State(now) == AfterRead(limits, old(State(now)), i, parsed)
      ensures old(slots[i].book.free) != [] ==> r == Given(old(slots[i].book.free[|slots[i].book.free| - 1]))
      ensures old(slots[i].book.free) == [] ==>
                var b := old(slots)[i].book;
                r == if old(budget.held) + b.readerBytes > limits.maxBytes then
                       Full(b.readerBytes, old(budget.held), limits.maxBytes)
                     else if parsed then Given(Further) else Unreadable
      ensures !r.Given? ==> State(now) == old(State(now))
    {
      hide Safe, Sum, AfterRead;
      SafeAnyTime(limits, State(0), now, lastSweep);
      ReadAlone(limits, State(now), i, parsed);
      ReadIsSafe(limits, State(now), i, parsed);
      SafeAnyTime(limits, AfterRead(limits, State(now), i, parsed), 0, lastSweep);
      var b := slots[i].book;
      if b.free != [] {
        slots := slots[i := Open(Lent(b))];
        return Given(b.free[|b.free| - 1]);
      }
      var held := budget.Take(b.readerBytes);
      if held.Some? {
        return Full(b.readerBytes, held.value, limits.maxBytes);
      }
      if !parsed {
        budget.Give(b.readerBytes);
        return Unreadable;
      }
      slots := slots[i := Open(b.(furthersOut := b.furthersOut + 1))];
      return Given(Further);
    }

    /** A `PooledReader` dropped: its reader is parked, and the charge of one
        that finds no room is given back. */
    method ReturnReader(i: nat, reader: Reader, ghost now: nat)
      requires Valid() && Enabled(limits, State(now), Return(i, reader))
      modifies this, budget
      ensures Valid() && State(now) == AfterReturn(limits, old(State(now)), i, reader)
    {
      hide Safe, Sum, AfterReturn, Park;
      SafeAnyTime(limits, State(0), now, lastSweep);
      ReturnAlone(limits, State(now), i, reader);
      ReturnIsSafe(limits, State(now), i, reader);
      SafeAnyTime(limits, AfterReturn(limits, State(now), i, reader), 0, lastSweep);
      var b := slots[i].book;
      slots := slots[i := Open(Back(b, reader))];
      if Park(b.free, reader).dropped == Some(Further) {
        budget.Give(b.readerBytes);
      }
    }
  }
}
