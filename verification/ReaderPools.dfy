/** The free list of readers one workbook keeps parked (`src/store.rs`). */
module ReaderPools {
  import opened Sequences

  const MAX_POOLED_READERS: nat := 1

  /** A workbook's first reader is covered by the workbook's own charge; every
      further one carries a charge of its own. */
  datatype Reader = First | Further

  function Firsts(readers: seq<Reader>): nat {
    multiset(readers)[First]
  }

  function Furthers(readers: seq<Reader>): nat {
    multiset(readers)[Further]
  }

  /** What `ReaderPool::park` leaves parked, and the reader it drops. */
  datatype Parking = Parking(free: seq<Reader>, dropped: Option<Reader>)

  /** The first charged reader in the list. */
  function ChargedAt(free: seq<Reader>): (k: Option<nat>)
    ensures k.Some? ==> k.value < |free| && free[k.value] == Further
    ensures k.None? <==> Further !in free
  {
    if free == [] then None
    else if free[0] == Further then Some(0)
    else
      match ChargedAt(free[1..])
      case None => None
      case Some(k) => Some(k + 1)
  }

  function Park(free: seq<Reader>, reader: Reader): Parking {
    if |free| < MAX_POOLED_READERS then Parking(free + [reader], None)
    else if reader.First? && ChargedAt(free).Some? then Parking(free[ChargedAt(free).value := reader], Some(Further))
    else Parking(free, Some(reader))
  }

  /** Parking loses no reader but the one it says it drops, and that is the
      first reader only when the list is already full of first readers. */
  lemma {:induction false} ParkConserves(free: seq<Reader>, reader: Reader)
    ensures var p := Park(free, reader);
            && Firsts(p.free) + Firsts(Dropped(p)) == Firsts(free) + Firsts([reader])
            && Furthers(p.free) + Furthers(Dropped(p)) == Furthers(free) + Furthers([reader])
            && |p.free| <= Max(|free|, MAX_POOLED_READERS)
            && (p.dropped == Some(First) <==> reader.First? && |free| >= MAX_POOLED_READERS && Further !in free)
  {
    if |free| >= MAX_POOLED_READERS && reader.First? && ChargedAt(free).Some? {
      var k := ChargedAt(free).value;
      assert free == free[..k] + [Further] + free[k + 1..];
      assert free[k := reader] == free[..k] + [First] + free[k + 1..];
    }
  }

  function Dropped(p: Parking): seq<Reader> {
    if p.dropped.Some? then [p.dropped.value] else []
  }

  class ReaderPool {
    var free: seq<Reader>

    constructor ()
      ensures free == []
    {
      free := [];
    }

    /** The reader parked last leaves the pool, and only an empty pool has none
        to give. */
    method Take() returns (reader: Option<Reader>)
      modifies this
      ensures reader.None? <==> old(free) == []
      ensures reader.Some? ==> free + [reader.value] == old(free)
      ensures reader.None? ==> free == old(free)
    {
      if free == [] {
        return None;
      }
      reader := Some(free[|free| - 1]);
      free := free[..|free| - 1];
    }

    /** Park a reader for reuse; the reader dropped instead, if any. */
    method ParkReader(reader: Reader) returns (dropped: Option<Reader>)
      modifies this
      ensures Parking(free, dropped) == Park(old(free), reader)
    {
      if |free| < MAX_POOLED_READERS {
        free := free + [reader];
        return None;
      }
      if reader.First? {
        var k := 0;
        while k < |free|
          invariant k <= |free|
          invariant ChargedAt(free) == match ChargedAt(free[k..]) case None => None case Some(j) => Some(k + j)
        {
          if free[k].Further? {
            free := free[k := reader];
            return Some(Further);
          }
          assert free[k..][1..] == free[k + 1..];
          k := k + 1;
        }
      }
      return Some(reader);
    }
  }
}
