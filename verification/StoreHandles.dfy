/** Who holds a workbook (`src/store.rs`): handles and readers are counted out
    and counted back, which is what makes a workbook busy. */
module StoreHandles {
  import opened Sequences
  import opened ReaderPools
  import opened StoreProtocol
  import opened StoreSafety

  /** The handles out on a workbook, beyond the one its own opening holds. */
  function Held(s: Store, i: nat): int {
    if IsOpen(s, i) then s.slots[i].book.handles + s.slots[i].book.fetching - 1 else 0
  }

  /** The readers checked out of a workbook. */
  function Out(s: Store, i: nat): nat {
    if IsOpen(s, i) then s.slots[i].book.firstsOut + s.slots[i].book.furthersOut else 0
  }

  /** How many times `a` is among `steps`. */
  function Times(steps: seq<Step>, a: Step): nat {
    multiset(steps)[a]
  }

  lemma BookMoves(c: Limits, s: Store, a: Step)
    requires Enabled(c, s, a) && OnBook(a) && BookOk(s.slots[a.i].book)
    ensures var b, b' := s.slots[a.i].book, NextBook(c, s, a);
            && b'.handles + b'.fetching ==
               b.handles + b.fetching + (if a.Fetch? then 1 else if a.Release? then -1 else 0)
            && b'.firstsOut + b'.furthersOut == b.firstsOut + b.furthersOut + Lends(c, s, a)
  {
    hide Charged, Park, Dropped, Firsts, Furthers;
    CountReaders();
  }

  /** What a step does to the readers checked out: a read that finds one parked
      and an open that ends well lend one, and a return takes one back. */
  function Lends(c: Limits, s: Store, a: Step): int
    requires Enabled(c, s, a)
  {
    if a.Checkout? && s.slots[a.i].book.free != [] then 1
    else if a.OpenReader? && a.parsed then 1
    else if a.Return? then -1
    else 0
  }

  lemma RegistryMoves(c: Limits, s: Store, a: Step, i: nat)
    requires Enabled(c, s, a) && !OnBook(a) && i < |s.slots|
    ensures Held(Next(c, s, a), i) == Held(s, i) && Out(Next(c, s, a), i) == Out(s, i)
  {
    hide Fits, Park, Freed;
  }

  lemma OtherSlots(c: Limits, s: Store, a: Step, i: nat)
    requires Enabled(c, s, a) && OnBook(a) && i != a.i
    ensures |Next(c, s, a).slots| == |s.slots| && (i < |s.slots| ==> Next(c, s, a).slots[i] == s.slots[i])
  {
    hide NextBook, NextHeld, Releasable, Unreachable;
  }

  lemma OthersStay(c: Limits, s: Store, a: Step, i: nat)
    requires Enabled(c, s, a) && OnBook(a) && i != a.i
    ensures Held(Next(c, s, a), i) == Held(s, i) && Out(Next(c, s, a), i) == Out(s, i)
  {
    hide Next, Enabled;
    OtherSlots(c, s, a, i);
  }

  lemma OwnMoves(c: Limits, s: Store, a: Step)
    requires Enabled(c, s, a) && OnBook(a) && BooksOk(s.slots)
    ensures Held(Next(c, s, a), a.i) ==
            Held(s, a.i) + (if a == Fetch(a.i) then 1 else if a == Release(a.i) then -1 else 0)
    ensures Out(Next(c, s, a), a.i) == Out(s, a.i) + Lends(c, s, a)
  {
    hide NextBook, NextHeld, Lends, BookOk;
    BookMoves(c, s, a);
  }

  lemma RoomHasNone(c: Limits, s: Store, a: Step, i: nat)
    requires Enabled(c, s, a) && !OnBook(a) && i >= |s.slots|
    ensures Held(Next(c, s, a), i) == 0 == Held(s, i) && Out(Next(c, s, a), i) == 0 == Out(s, i)
  {
    hide Fits, SweptSlot, Freed;
  }

  /** One step: only a fetch takes a handle and only a release gives one up, and
      readers go and come as they are lent and returned. */
  lemma {:induction false} StepMoves(c: Limits, s: Store, a: Step, i: nat)
    requires Enabled(c, s, a) && BooksOk(s.slots)
    ensures Held(Next(c, s, a), i) == Held(s, i) + (if a == Fetch(i) then 1 else if a == Release(i) then -1 else 0)
    ensures Out(Next(c, s, a), i) == Out(s, i) + if OnBook(a) && a.i == i then Lends(c, s, a) else 0
  {
    hide Next, Enabled, Held, Out, Lends;
    if !OnBook(a) {
      if i < |s.slots| {
        RegistryMoves(c, s, a, i);
      } else {
        RoomHasNone(c, s, a, i);
      }
    } else if a.i != i {
      OthersStay(c, s, a, i);
    } else {
      OwnMoves(c, s, a);
    }
  }

  lemma TimesFirst(steps: seq<Step>, a: Step)
    requires steps != []
    ensures Times(steps, a) == Times(steps[1..], a) + if steps[0] == a then 1 else 0
  {
    assert steps == [steps[0]] + steps[1..];
  }

  /** In every reachable state a workbook's handles are the one of its opening
      and those fetched, less those released; it is busy exactly while that is
      more than none. */
  lemma {:induction false} HandlesAreCounted(c: Limits, s: Store, steps: seq<Step>, i: nat)
    requires c.maxBytes < U64_MAX && Safe(c, s) && Runs(c, s, steps)
    ensures Held(After(c, s, steps), i) == Held(s, i) + Times(steps, Fetch(i)) - Times(steps, Release(i))
    decreases |steps|
  {
    hide Safe, Next, Enabled, Held, Times;
    if steps == [] {
      NoneOf(Fetch(i));
      NoneOf(Release(i));
    } else {
      StepSafe(c, s, steps[0]);
      BooksAreOk(c, s);
      StepMoves(c, s, steps[0], i);
      TimesFirst(steps, Fetch(i));
      TimesFirst(steps, Release(i));
      HandlesAreCounted(c, Next(c, s, steps[0]), steps[1..], i);
    }
  }

  lemma NoneOf(a: Step)
    ensures Times([], a) == 0
  {
  }

  lemma BooksAreOk(c: Limits, s: Store)
    requires Safe(c, s)
    ensures BooksOk(s.slots)
  {
  }

  /** From the empty store: a workbook is busy exactly when the handles of its
      opening and its fetches are not all released. */
  lemma {:induction false} BusyExactly(c: Limits, steps: seq<Step>, i: nat)
    requires c.maxBytes < U64_MAX && Runs(c, EMPTY, steps) && IsOpen(After(c, EMPTY, steps), i)
    ensures Busy(After(c, EMPTY, steps).slots[i].book) <==> Times(steps, Release(i)) < 1 + Times(steps, Fetch(i))
  {
    hide Next, Enabled, Times;
    HandlesAreCounted(c, EMPTY, steps, i);
  }
}
