/** The bounded workbook store as a protocol of atomic steps
    (`src/store.rs`). Any number of requests run at once. What the source does
    under one lock, or in one operation on a counter, is one step here; all
    else interleaves freely. */
module StoreProtocol {
  import opened Sequences
  import opened Budgets
  import opened ReaderPools

  /** `StoreLimits`; `idleTtl` in ticks of the clock. */
  datatype Limits = Limits(maxOpen: nat, maxBytes: nat, idleTtl: nat)

  /** A workbook. `handles` counts the `Arc`s given out by the store and
      `fetching` those just cloned by a `get` that has not recorded its use
      yet. `firstsOut` and `furthersOut` readers are checked out; `missed`
      requests found the pool empty and have not been charged; `opening` ones
      are charged and still parsing; `dropping` charges belong to readers
      already dropped and are about to be given back.

      `idleSince` is when the last handle went, and `evictedAt` when a sweep
      closed the workbook; neither is something the source stores. */
  datatype Book = Book(
    heldBytes: nat,
    readerBytes: nat,
    registered: bool,
    handles: nat,
    fetching: nat,
    lastUsed: nat,
    free: seq<Reader>,
    pooled: bool,
    firstsOut: nat,
    furthersOut: nat,
    missed: nat,
    opening: nat,
    dropping: nat,
    idleSince: nat,
    evictedAt: Option<nat>)

  /** An open: room taken, given up, or a workbook. */
  datatype Slot = Reserved(bytes: nat, readerBytes: nat) | Abandoned | Open(book: Book)

  /** Who holds the registry's write lock, and what is left to do under it:
      `Giving` bytes already removed from the registry, and then going on to
      admit an upload, if that is what the lock was taken for. */
  datatype Lock =
    | Unlocked
    | Giving(freed: nat, next: Option<Upload>)
    | Fitting(upload: Upload)
    | Charging(upload: Upload)

  /** What `open` reserves room for: the upload and what each reader keeps. */
  datatype Upload = Upload(bytes: nat, readerBytes: nat)

  datatype Store = Store(slots: seq<Slot>, pending: nat, held: nat, lock: Lock, now: nat, lastSweep: nat)

  datatype Refusal =
    | OpenWorkbooks(max: nat)
    | StoreBytes(needed: nat, held: nat, max: nat)

  const EMPTY: Store := Store([], 0, 0, Unlocked, 0, 0)

  datatype Step =
    | Tick(dt: nat)
      // the registry, under its lock
    | Reserve(length: nat, inflated: nat)
    | Evict
    | GiveFreed
    | Fit
    | TakeRoom
    | Register(i: nat, stamp: nat)
    | Abandon(i: nat)
    | Close(i: nat)
      // handles
    | Fetch(i: nat)
    | Touch(i: nat, stamp: nat)
    | Release(i: nat)
      // readers
    | Checkout(i: nat)
    | ChargeReader(i: nat)
    | OpenReader(i: nat, parsed: bool)
    | Return(i: nat, reader: Reader)
    | GiveCharge(i: nat)
    | DropPool(i: nat)

  // ---- what the registry counts ----

  function Entries(slot: Slot): nat {
    if slot.Open? && slot.book.registered then 1 else 0
  }

  function Pending(slot: Slot): nat {
    if slot.Reserved? then 1 else 0
  }

  /** Live charges of a workbook's further readers. */
  function Charges(b: Book): nat {
    Furthers(b.free) + b.furthersOut + b.opening + b.dropping
  }

  /** What a slot accounts for in the budget. */
  function Accounted(slot: Slot): nat {
    match slot
    case Reserved(bytes, _) => bytes
    case Abandoned => 0
    case Open(b) => (if b.registered then b.heldBytes else 0) + Charges(b) * b.readerBytes
  }

  function LockBytes(lock: Lock): nat {
    if lock.Giving? then lock.freed else 0
  }

  /** `WorkbookStore::fits`. */
  function Fits(c: Limits, s: Store, bytes: nat): Option<Refusal> {
    if Sum(Entries, s.slots) + s.pending >= c.maxOpen then Some(OpenWorkbooks(c.maxOpen))
    else if SatAdd(s.held, bytes) > c.maxBytes then Some(StoreBytes(bytes, s.held, c.maxBytes))
    else None
  }

  // ---- the sweep ----

  /** `Arc::strong_count(entry) > 1`. */
  predicate Busy(b: Book) {
    b.handles + b.fetching > 0
  }

  predicate Expired(c: Limits, now: nat, b: Book) {
    b.registered && !Busy(b) && now - b.lastUsed >= c.idleTtl
  }

  function SweptSlot(c: Limits, now: nat, slot: Slot): Slot {
    if !slot.Open? || !slot.book.registered then slot
    else if Busy(slot.book) then Open(slot.book.(lastUsed := now))
    else if Expired(c, now, slot.book) then Open(slot.book.(registered := false, evictedAt := Some(now)))
    else slot
  }

  function FreedBySweep(c: Limits, now: nat, slot: Slot): nat {
    if slot.Open? && Expired(c, now, slot.book) then slot.book.heldBytes else 0
  }

  function Freed(c: Limits, now: nat, slots: seq<Slot>): nat {
    if slots == [] then 0 else Freed(c, now, slots[..|slots| - 1]) + FreedBySweep(c, now, slots[|slots| - 1])
  }

  function SweptSlots(c: Limits, now: nat, slots: seq<Slot>): (r: seq<Slot>)
    ensures |r| == |slots|
    ensures forall i :: 0 <= i < |slots| ==> r[i] == SweptSlot(c, now, slots[i])
  {
    seq(|slots|, i requires 0 <= i < |slots| => SweptSlot(c, now, slots[i]))
  }

  /** `WorkbookStore::sweep`, up to where it gives the bytes back. */
  function Sweep(c: Limits, s: Store, next: Option<Upload>): Store {
    if c.idleTtl == 0 then s.(lock := Giving(0, next))
    else s.(slots := SweptSlots(c, s.now, s.slots),
            lock := Giving(Wrapped(Freed(c, s.now, s.slots)), next),
            lastSweep := s.now)
  }

  // ---- the steps ----

  predicate IsOpen(s: Store, i: nat) {
    i < |s.slots| && s.slots[i].Open?
  }

  /** When a step can happen at all. */
  predicate Enabled(c: Limits, s: Store, a: Step) {
    match a
    case Tick(_) => true
    case Reserve(length, inflated) => s.lock.Unlocked? && length <= U64_MAX && inflated <= U64_MAX
    case Evict => s.lock.Unlocked?
    case GiveFreed => s.lock.Giving?
    case Fit => s.lock.Fitting?
    case TakeRoom => s.lock.Charging?
    case Register(i, stamp) => s.lock.Unlocked? && i < |s.slots| && s.slots[i].Reserved? && stamp <= s.now
    case Abandon(i) => s.lock.Unlocked? && i < |s.slots| && s.slots[i].Reserved?
    case Close(i) => s.lock.Unlocked? && IsOpen(s, i) && s.slots[i].book.registered
    case Fetch(i) => s.lock.Unlocked? && IsOpen(s, i) && s.slots[i].book.registered
    case Touch(i, stamp) => IsOpen(s, i) && s.slots[i].book.fetching > 0 && stamp <= s.now
    case Release(i) => IsOpen(s, i) && Releasable(s.slots[i].book)
    case Checkout(i) => IsOpen(s, i) && s.slots[i].book.handles > 0
    case ChargeReader(i) => IsOpen(s, i) && s.slots[i].book.missed > 0
    case OpenReader(i, _) => IsOpen(s, i) && s.slots[i].book.opening > 0
    case Return(i, reader) =>
      IsOpen(s, i) && (if reader.First? then s.slots[i].book.firstsOut else s.slots[i].book.furthersOut) > 0
    case GiveCharge(i) => IsOpen(s, i) && s.slots[i].book.dropping > 0
    case DropPool(i) => IsOpen(s, i) && Unreachable(s.slots[i].book)
  }

  /** A handle lent to a request that is opening a reader cannot go. */
  predicate Releasable(b: Book) {
    b.handles > (if b.missed + b.opening > 0 then 1 else 0)
  }

  /** Nothing refers to the workbook's pool any more. */
  predicate Unreachable(b: Book) {
    && b.pooled && !b.registered && !Busy(b)
    && b.missed + b.opening + b.firstsOut + b.furthersOut == 0
  }

  function SetBook(s: Store, i: nat, b: Book): Store
    requires IsOpen(s, i)
  {
    s.(slots := s.slots[i := Open(b)])
  }

  /** `usize` subtraction. */
  function OneFewer(n: nat): nat {
    if n == 0 then U64_MAX else n - 1
  }

  /** A workbook just parsed: its probing reader is parked, uncharged, and
      the request that opened it holds a handle. */
  function NewBook(room: Slot, stamp: nat): Book
    requires room.Reserved?
  {
    Book(heldBytes := room.bytes, readerBytes := room.readerBytes, registered := true, handles := 1, fetching := 0,
         lastUsed := stamp, free := Park([], First).free, pooled := true, firstsOut := 0, furthersOut := 0,
         missed := 0, opening := 0, dropping := 0, idleSince := 0, evictedAt := None)
  }

  function Next(c: Limits, s: Store, a: Step): Store
    requires Enabled(c, s, a)
  {
    match a
    case Tick(dt) => s.(now := s.now + dt)
    case Reserve(length, inflated) => Sweep(c, s, Some(Upload(SatAdd(length, inflated), inflated)))
    case Evict => Sweep(c, s, None)
    case GiveFreed =>
      s.(held := Given(s.held, s.lock.freed),
         lock := match s.lock.next case None => Unlocked case Some(upload) => Fitting(upload))
    case Fit =>
      s.(lock := if Fits(c, s, s.lock.upload.bytes).Some? then Unlocked else Charging(s.lock.upload))
    case TakeRoom => (
      match Taken(s.held, c.maxBytes, s.lock.upload.bytes)
      case None => s.(lock := Unlocked)
      case Some(held) =>
        s.(held := held, pending := s.pending + 1, lock := Unlocked,
           slots := s.slots + [Reserved(s.lock.upload.bytes, s.lock.upload.readerBytes)])
    )
    case Register(i, stamp) =>
      s.(pending := OneFewer(s.pending), slots := s.slots[i := Open(NewBook(s.slots[i], stamp))])
    case Abandon(i) =>
      s.(pending := OneFewer(s.pending), slots := s.slots[i := Abandoned], lock := Giving(s.slots[i].bytes, None))
    case Close(i) =>
      var b := s.slots[i].book;
      SetBook(s, i, b.(registered := false)).(lock := Giving(b.heldBytes, None))
    case _ => SetBook(s, a.i, NextBook(c, s, a)).(held := NextHeld(c, s, a))
  }

  /** The steps that concern one open workbook. */
  predicate OnBook(a: Step) {
    || a.Fetch? || a.Touch? || a.Release? || a.Checkout? || a.ChargeReader? || a.OpenReader?
    || a.Return? || a.GiveCharge? || a.DropPool?
  }

  /** `Budget::take` by a request that found the pool empty. */
  function Charged(c: Limits, s: Store, b: Book): Option<nat> {
    Taken(s.held, c.maxBytes, b.readerBytes)
  }

  function NextHeld(c: Limits, s: Store, a: Step): nat
    requires Enabled(c, s, a) && OnBook(a)
  {
    var b := s.slots[a.i].book;
    if a.ChargeReader? && Charged(c, s, b).Some? then Charged(c, s, b).value
    else if a.GiveCharge? then Given(s.held, b.readerBytes)
    else s.held
  }

  function NextBook(c: Limits, s: Store, a: Step): Book
    requires Enabled(c, s, a) && OnBook(a)
  {
    var b := s.slots[a.i].book;
    match a
    case Fetch(_) => b.(fetching := b.fetching + 1)
    case Touch(_, stamp) => b.(fetching := b.fetching - 1, handles := b.handles + 1, lastUsed := stamp)
    case Release(_) =>
      b.(handles := b.handles - 1,
         idleSince := if b.handles + b.fetching == 1 then s.now else b.idleSince)
    case Checkout(_) =>
      if b.free == [] then b.(missed := b.missed + 1)
      else if b.free[|b.free| - 1].First? then
        b.(free := b.free[..|b.free| - 1], firstsOut := b.firstsOut + 1)
      else
        b.(free := b.free[..|b.free| - 1], furthersOut := b.furthersOut + 1)
    case ChargeReader(_) =>
      b.(missed := b.missed - 1, opening := b.opening + if Charged(c, s, b).Some? then 1 else 0)
    case OpenReader(_, parsed) =>
      if parsed then b.(opening := b.opening - 1, furthersOut := b.furthersOut + 1)
      else b.(opening := b.opening - 1, dropping := b.dropping + 1)
    case Return(_, reader) =>
      var p := Park(b.free, reader);
      b.(free := p.free,
         firstsOut := b.firstsOut - Firsts([reader]),
         furthersOut := b.furthersOut - Furthers([reader]),
         dropping := b.dropping + Furthers(Dropped(p)))
    case GiveCharge(_) => b.(dropping := b.dropping - 1)
    case DropPool(_) => b.(free := [], pooled := false, dropping := b.dropping + Furthers(b.free))
  }

  // ---- runs ----

  predicate Runs(c: Limits, s: Store, steps: seq<Step>)
    decreases |steps|
  {
    steps == [] || (Enabled(c, s, steps[0]) && Runs(c, Next(c, s, steps[0]), steps[1..]))
  }

  function After(c: Limits, s: Store, steps: seq<Step>): Store
    requires Runs(c, s, steps)
    decreases |steps|
  {
    if steps == [] then s else After(c, Next(c, s, steps[0]), steps[1..])
  }
}
