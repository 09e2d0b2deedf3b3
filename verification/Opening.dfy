/** Opening a workbook (`src/store.rs`, `open`): what it would inflate to is
    measured, room for it reserved, and then it is parsed. */
module Opening {
  import opened Sequences
  import I = Inspecting
  import opened StoreProtocol
  import opened StoreSafety
  import opened WorkbookStores

  datatype Opened =
    | Workbook(i: nat)
    | Rejected(verdict: I.Inspection)
    | NoRoom(refusal: Refusal)
    | ParseFailed

  /** `Inflated::reader_bytes`: what one reader keeps, pictures and tables. */
  function ReaderBytes(inflated: I.Inspection): nat
    requires inflated.Inflated?
  {
    SatAdd(inflated.pictures, inflated.strings)
  }

  /** The bytes of an upload's pictures and what its tables are charged. */
  ghost function Kept(limits: I.Limits, entries: seq<I.Entry>): nat {
    I.PictureBytes(entries) + I.TableBytes(limits, entries)
  }

  lemma KeptIs(limits: I.Limits, entries: seq<I.Entry>, length: nat)
    requires I.ValidLimits(limits) && I.Inspected(limits, entries).Inflated?
    ensures I.Passes(limits, entries)
    ensures var readerBytes := ReaderBytes(I.Inspected(limits, entries));
            && readerBytes == Min(Kept(limits, entries), 0xFFFF_FFFF_FFFF_FFFF)
            && SatAdd(length, readerBytes) == Min(length + Kept(limits, entries), 0xFFFF_FFFF_FFFF_FFFF)
  {
    I.InspectedIs(limits, entries);
    hide I.Inspected, I.Passes;
  }

  /** The workbook that an open has made: charged for the upload and for what a
      reader keeps of it, each further reader for the latter alone. */
  ghost predicate IsCharged(slot: Slot, length: nat, kept: nat) {
    && slot.Open? && slot.book.registered
    && slot.book.heldBytes == Min(length + kept, 0xFFFF_FFFF_FFFF_FFFF)
    && slot.book.readerBytes == Min(kept, 0xFFFF_FFFF_FFFF_FFFF)
  }

  /** A workbook that does not pass inspection changes nothing; one there is no
      room for leaves what a sweep leaves; one that cannot be parsed leaves that
      too; and any other is registered, and the budget holds just its bytes
      more. */
  method Open(store: WorkbookStore, limits: I.Limits, length: nat, entries: seq<I.Entry>, parsed: bool, now: nat)
    returns (r: Opened)
    requires store.Valid() && length <= U64_MAX && I.ValidLimits(limits) && I.ReadableEntries(entries)
    modifies store, store.budget
    ensures store.Valid()
    ensures r.Rejected? <==> !I.Passes(limits, entries)
    ensures r.Rejected? ==> I.VerdictIs(limits, entries, r.verdict) && store.State(now) == old(store.State(now))
    ensures !r.Rejected? ==>
              var swept := AfterSweep(store.limits, old(store.State(now)));
              var bytes := Min(length + Kept(limits, entries), 0xFFFF_FFFF_FFFF_FFFF);
              && Refuses(store.limits, swept, bytes, if r.NoRoom? then Some(r.refusal) else None)
              && store.budget.held == swept.held + (if r.Workbook? then bytes else 0)
              && store.pending == swept.pending
    ensures r.Workbook? ==> r.i < |store.slots| && IsCharged(store.slots[r.i], length, Kept(limits, entries))
    ensures r.ParseFailed? ==> !parsed
  {
    hide Safe, Sum, AfterSweep, AfterReserve, Refuses, I.VerdictIs, I.Passes, I.Inspected;
    I.InspectedIs(limits, entries);
    var inflated, _ := I.Inspect(entries, limits);
    VerdictPasses(limits, entries);
    if !inflated.Inflated? {
      return Rejected(inflated);
    }
    KeptIs(limits, entries, length);
    var readerBytes := ReaderBytes(inflated);
    ghost var before := store.State(now);
    SafeAnyTime(store.limits, store.State(0), now, store.lastSweep);
    ReserveAlone(store.limits, before, length, readerBytes);
    FitsNames(store.limits, AfterSweep(store.limits, before), SatAdd(length, readerBytes));
    var refusal, i := store.Reserve(length, readerBytes, now);
    if refusal.Some? {
      return NoRoom(refusal.value);
    }
    if !parsed {
      store.Abandon(i, now);
      return ParseFailed;
    }
    store.Register(i, now, now);
    return Workbook(i);
  }

  lemma VerdictPasses(limits: I.Limits, entries: seq<I.Entry>)
    requires I.VerdictIs(limits, entries, I.Inspected(limits, entries))
    ensures I.Inspected(limits, entries).Inflated? <==> I.Passes(limits, entries)
  {
  }
}
