/** The byte budget every open workbook and every further reader is charged to
    (`src/store.rs`). Its counter is a 64-bit word. */
module Budgets {
  import opened Sequences

  const U64: nat := 0x1_0000_0000_0000_0000

  /** What `+=` leaves in a 64-bit word. */
  function Wrapped(n: nat): nat {
    n % U64
  }

  /** `Budget::take`: what is held afterwards, or nothing when it is refused. */
  function Taken(held: nat, max: nat, bytes: nat): Option<nat> {
    if SatAdd(held, bytes) > max then None else Some(Wrapped(held + bytes))
  }

  /** `Budget::give`. */
  function Given(held: nat, bytes: nat): nat {
    Max(held - bytes, 0)
  }

  /** A budget admits exactly what fits, for any size at all, unless it is
      configured to the largest 64-bit number: then the saturated sum passes
      the check and the counter wraps. */
  lemma {:induction false} TakeIsExact(max: nat)
    requires max <= U64_MAX
    ensures max < U64_MAX <==> (forall held: nat, bytes: nat :: held <= max && bytes <= U64_MAX ==>
                                  Taken(held, max, bytes) == (if held + bytes <= max then Some(held + bytes) else None))
  {
    if max == U64_MAX {
      assert Taken(max, max, 1) == Some(0);
    }
  }

  /** Giving back what was taken restores the counter. */
  lemma {:induction false} GiveUndoesTake(held: nat, max: nat, bytes: nat)
    requires held <= max < U64_MAX
    ensures Taken(held, max, bytes).Some? ==> Given(Taken(held, max, bytes).value, bytes) == held
  {
  }

  class Budget {
    var held: nat
    const max: nat

    ghost predicate Valid()
      reads this
    {
      held <= max < U64_MAX
    }

    constructor (max: nat)
      requires max < U64_MAX
      ensures Valid() && held == 0 && this.max == max
    {
      held := 0;
      this.max := max;
    }

    /** All of `bytes` or none of them: a refusal changes nothing and names the
        amount that stood in the way. */
    method Take(bytes: nat) returns (refused: Option<nat>)
      requires Valid()
      modifies this
      ensures Valid()
      ensures refused == if old(held) + bytes <= max then None else Some(old(held))
      ensures held == if old(held) + bytes <= max then old(held) + bytes else old(held)
      ensures Taken(old(held), max, bytes) == if refused.None? then Some(held) else None
    {
      if SatAdd(held, bytes) > max {
        return Some(held);
      }
      held := Wrapped(held + bytes);
      return None;
    }

    method Give(bytes: nat)
      requires Valid()
      modifies this
      ensures Valid() && held == Given(old(held), bytes)
      ensures bytes <= old(held) ==> held + bytes == old(held)
    {
      held := if bytes <= held then held - bytes else 0;
    }
  }
}
