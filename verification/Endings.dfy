/** What a client is told beside rows (`src/service.rs`): how a stream begins,
    what its messages may be, and how it ends. */
module Endings {
  import opened Sequences
  import opened Contract
  import opened StringTables
  import opened Batching
  import opened BatchingFacts
  import opened BatcherInvariant
  import opened Walking
  import opened WalkInvariant
  import opened StreamTheorems

  // ---- messages on the way ----

  /** Indices one after another. */
  ghost predicate Consecutive(rows: seq<Row>) {
    forall k :: 0 < k < |rows| ==> rows[k].index == rows[k - 1].index + 1
  }

  /** Neither a beginning nor an end: a string table chunk, a gap, or rows under
      the carrier that was asked for. A batch is some consecutive rows. */
  ghost predicate OnTheWay(single: bool, e: Event) {
    match e
    case StringTable(_, _) => true
    case RowGap(_, _) => true
    case OneRow(_) => single
    case Rows(rows) => !single && rows != [] && Consecutive(rows)
    case _ => false
  }

  ghost predicate AllOnTheWay(single: bool, events: seq<Event>) {
    forall k :: 0 <= k < |events| ==> OnTheWay(single, events[k])
  }

  lemma OnTheWayJoins(single: bool, a: seq<Event>, b: seq<Event>)
    requires AllOnTheWay(single, a) && AllOnTheWay(single, b)
    ensures AllOnTheWay(single, a + b)
  {
    hide OnTheWay;
  }

  lemma {:induction false} ChunksOnTheWay(single: bool, pending: seq<Bytes>, nextId: nat)
    requires |pending| <= nextId
    ensures AllOnTheWay(single, Chunks(pending, nextId))
    decreases |pending|
  {
    ChunksFirst(pending, nextId);
    if pending != [] {
      hide ChunkEnd, Chunks;
      ChunksOnTheWay(single, pending[ChunkEnd(pending, 0, 0)..], nextId);
    }
  }

  lemma {:induction false} RunsOnTheWay(cfg: Config, run: seq<Row>, rest: seq<Row>, next: Option<nat>)
    requires Consecutive(run)
    ensures AllOnTheWay(cfg.single, FlushFrom(cfg, run, rest, next))
    decreases |rest|
  {
    if rest == [] {
    } else if run != [] && rest[0].index != run[|run| - 1].index + 1 {
      RunsOnTheWay(cfg, [rest[0]], rest[1..], NextAfter(run, next));
      OnTheWayJoins(cfg.single, SendRun(cfg, run, next), FlushFrom(cfg, [rest[0]], rest[1..], NextAfter(run, next)));
    } else {
      RunsOnTheWay(cfg, run + [rest[0]], rest[1..], next);
    }
  }

  lemma FlushOnTheWay(cfg: Config, b: Batcher)
    requires ValidTable(b.table)
    ensures AllOnTheWay(cfg.single, Flush(cfg, b).1)
  {
    hide FlushFrom, Chunks, SortRows, AllOnTheWay;
    NothingOnTheWay(cfg.single);
    if b.rows != [] {
      RunsOnTheWay(cfg, [], SortRows(b.rows, cfg.tie), b.nextExpected);
      if b.table.Some? {
        ChunksOnTheWay(cfg.single, b.table.value.pending, b.table.value.nextId);
      }
      OnTheWayJoins(cfg.single, NewStrings(b.table).1, FlushFrom(cfg, [], SortRows(b.rows, cfg.tie), b.nextExpected));
    }
  }

  lemma NothingOnTheWay(single: bool)
    ensures AllOnTheWay(single, [])
  {
  }

  lemma PushOnTheWay(cfg: Config, b: Batcher, row: Row)
    requires ValidTable(b.table)
    ensures AllOnTheWay(cfg.single, Push(cfg, b, row).1)
  {
    hide Flush, Enqueue, AllOnTheWay, Full, Lingered;
    NothingOnTheWay(cfg.single);
    PushEither(cfg, b, row);
    FlushOnTheWay(cfg, Queued(b, row));
  }

  // ---- runs as long as they can be ----

  /** No batch could have held the rows of the next message too. */
  ghost predicate AsLongAsCanBe(events: seq<Event>) {
    forall k :: 0 < k < |events| && events[k - 1].Rows? && events[k].Rows? ==> Apart(events[k - 1].rows, events[k].rows)
  }

  ghost predicate Apart(a: seq<Row>, b: seq<Row>) {
    a != [] && b != [] && b[0].index != a[|a| - 1].index + 1
  }

  /** What a flush goes on with starts with its run, or with a gap. */
  lemma {:induction false} StartsWithRun(cfg: Config, run: seq<Row>, rest: seq<Row>, next: Option<nat>)
    requires run != []
    ensures var events := FlushFrom(cfg, run, rest, next);
            events != [] && (events[0].Rows? ==> events[0].rows != [] && events[0].rows[0] == run[0])
    decreases |rest|
  {
    if rest != [] && rest[0].index == run[|run| - 1].index + 1 {
      StartsWithRun(cfg, run + [rest[0]], rest[1..], next);
    }
  }

  lemma SentRunEnds(cfg: Config, run: seq<Row>, next: Option<nat>)
    requires run != []
    ensures var events := SendRun(cfg, run, next);
            && events != [] && AsLongAsCanBe(events)
            && (events[|events| - 1].Rows? ==> events[|events| - 1].rows == run)
  {
  }

  lemma ApartJoins(a: seq<Event>, b: seq<Event>)
    requires AsLongAsCanBe(a) && AsLongAsCanBe(b) && a != [] && b != []
    requires a[|a| - 1].Rows? && b[0].Rows? ==> Apart(a[|a| - 1].rows, b[0].rows)
    ensures AsLongAsCanBe(a + b)
  {
    hide Apart;
    var all := a + b;
    forall k | 0 < k < |all| && all[k - 1].Rows? && all[k].Rows?
      ensures Apart(all[k - 1].rows, all[k].rows)
    {
      if k > |a| {
        assert all[k - 1] == b[k - 1 - |a|] && all[k] == b[k - |a|];
      }
    }
  }

  /** A flush splits its rows only where their indices jump or repeat. */
  lemma {:induction false} RunsAreWhole(cfg: Config, run: seq<Row>, rest: seq<Row>, next: Option<nat>)
    ensures AsLongAsCanBe(FlushFrom(cfg, run, rest, next))
    decreases |rest|
  {
    if rest == [] {
      if run != [] {
        SentRunEnds(cfg, run, next);
      }
    } else if run != [] && rest[0].index != run[|run| - 1].index + 1 {
      RunsAreWhole(cfg, [rest[0]], rest[1..], NextAfter(run, next));
      hide AsLongAsCanBe;
      SentRunEnds(cfg, run, next);
      StartsWithRun(cfg, [rest[0]], rest[1..], NextAfter(run, next));
      ApartJoins(SendRun(cfg, run, next), FlushFrom(cfg, [rest[0]], rest[1..], NextAfter(run, next)));
    } else {
      RunsAreWhole(cfg, run + [rest[0]], rest[1..], next);
    }
  }

  // ---- a stream that goes on ----

  /** A beginning, and then only messages on the way. */
  ghost predicate Begun(single: bool, events: seq<Event>) {
    events != [] && events[0] == Started && AllOnTheWay(single, events[1..])
  }

  lemma BegunGrows(single: bool, events: seq<Event>, more: seq<Event>)
    requires Begun(single, events) && AllOnTheWay(single, more)
    ensures Begun(single, events + more)
  {
    assert (events + more)[1..] == events[1..] + more;
    OnTheWayJoins(single, events[1..], more);
  }

  lemma TakeBegun(cfg: Config, w: Walk, cell: Cell)
    requires ValidTable(w.batcher.table) && Begun(cfg.single, w.events)
    ensures !Take(cfg, w, cell).status.Aborted? ==> Begun(cfg.single, Take(cfg, w, cell).events)
  {
    hide Push, Placed, Begun, AllOnTheWay;
    PushOnTheWay(cfg, w.batcher, LateRow(cell));
    BegunGrows(cfg.single, w.events, Push(cfg, w.batcher, LateRow(cell)).1);
    var row := Row(w.currentRow, w.values);
    PushOnTheWay(cfg, w.batcher, row);
    BegunGrows(cfg.single, w.events, Push(cfg, w.batcher, row).1);
  }

  lemma {:induction false} RunBegun(s: Setup, arrivals: seq<Arrival>)
    requires Walked(s, arrivals).status.Running?
    ensures Begun(s.cfg.single, Walked(s, arrivals).events)
  {
    if arrivals == [] {
    } else {
      var before, a := arrivals[..|arrivals| - 1], arrivals[|arrivals| - 1];
      assert before + [a] == arrivals;
      WalkedStep(s, before, a);
      hide Take, Begun, Convert, Kept;
      RunBegun(s, before);
      TakeBegun(s.cfg, Ready(s, before, a), NextCell(s, before, a));
    }
  }

  lemma FinishBegun(cfg: Config, w: Walk)
    requires ValidTable(w.batcher.table) && Begun(cfg.single, w.events) && w.status.Running?
    requires Finish(cfg, w).status.Completed?
    ensures Begun(cfg.single, Finish(cfg, w).events)
  {
    hide Push, Flush, Begun, AllOnTheWay, Accepts;
    var row := Row(w.currentRow, w.values);
    var w' := if w.open then Pushed(cfg, w, row) else w;
    PushOnTheWay(cfg, w.batcher, row);
    BegunGrows(cfg.single, w.events, Push(cfg, w.batcher, row).1);
    FlushOnTheWay(cfg, w'.batcher);
    BegunGrows(cfg.single, w'.events, Flush(cfg, w'.batcher).1);
  }

  // ---- how it ends ----

  /** The one cell that comes too late ends the stream, whatever follows it. */
  lemma {:induction false} LateEnds(s: Setup, arrivals: seq<Arrival>, k: nat)
    requires k < |arrivals| && TooLate(s, arrivals[..k], arrivals[k])
    ensures Walked(s, arrivals).status.Aborted?
    ensures Walked(s, arrivals).events ==
            Walked(s, arrivals[..k]).events + [Unsorted(arrivals[k].row, arrivals[k].col)]
  {
    var n := |arrivals| - 1;
    var before, a := arrivals[..n], arrivals[n];
    assert before + [a] == arrivals;
    RunInv(s, before);
    StepInv(s, before, a);
    if k < n {
      assert before[..k] == arrivals[..k];
      LateEnds(s, before, k);
    } else {
      LateStep(s, before, a);
    }
  }

  lemma LateStep(s: Setup, before: seq<Arrival>, a: Arrival)
    requires TooLate(s, before, a)
    ensures Walked(s, before + [a]).events == Walked(s, before).events + [Unsorted(a.row, a.col)]
  {
    RunInv(s, before);
    WalkedStep(s, before, a);
    ReadyInv(s, before, a);
    TakeInv(s.cfg, s.header, Ready(s, before, a), NextCell(s, before, a));
    ConvertPlaces(Walked(s, before).batcher.table, a);
    hide Push, Wire, Convert;
  }

  lemma ConvertPlaces(table: Option<Table>, a: Arrival)
    ensures Convert(table, a).1.row == a.row && Convert(table, a).1.col == a.col
  {
  }

  ghost predicate NeverLate(s: Setup, arrivals: seq<Arrival>) {
    forall k :: 0 <= k < |arrivals| ==> !TooLate(s, arrivals[..k], arrivals[k])
  }

  /** `events` begin and then end with `e`. */
  ghost predicate EndsWith(single: bool, events: seq<Event>, e: Event) {
    |events| > 1 && events[|events| - 1] == e && Begun(single, events[..|events| - 1])
  }

  /** What a stream's events must be, from what arrived. */
  ghost predicate Ends(s: Setup, arrivals: seq<Arrival>, readError: bool, events: seq<Event>) {
    && (forall k :: 0 <= k < |arrivals| && TooLate(s, arrivals[..k], arrivals[k]) ==>
                      EndsWith(s.cfg.single, events, Unsorted(arrivals[k].row, arrivals[k].col)))
    && (NeverLate(s, arrivals) && readError ==> EndsWith(s.cfg.single, events, ReadFailed))
    && (NeverLate(s, arrivals) && !readError ==> Begun(s.cfg.single, events))
  }

  lemma EndsWithEvent(single: bool, events: seq<Event>, e: Event)
    requires Begun(single, events)
    ensures EndsWith(single, events + [e], e)
  {
    assert (events + [e])[..|events|] == events;
  }

  lemma LateEndsStream(s: Setup, arrivals: seq<Arrival>, readError: bool, k: nat)
    requires k < |arrivals| && TooLate(s, arrivals[..k], arrivals[k])
    ensures Stream(s, arrivals, readError).status.Aborted?
    ensures EndsWith(s.cfg.single, Stream(s, arrivals, readError).events, Unsorted(arrivals[k].row, arrivals[k].col))
  {
    hide Walked, EndsWith, Begun;
    LateEnds(s, arrivals, k);
    RunBegun(s, arrivals[..k]);
    EndsWithEvent(s.cfg.single, Walked(s, arrivals[..k]).events, Unsorted(arrivals[k].row, arrivals[k].col));
  }

  /** Every stream begins with its header, which comes once, and then has rows
      under the carrier asked for, gaps and string table chunks. The cell that
      comes too late, if there is one, is reported at the end, wherever it is; a
      failure to read is reported at the end of a stream without one; and no
      other stream reports anything. */
  lemma {:induction false} EndsExactly(s: Setup, arrivals: seq<Arrival>, readError: bool)
    ensures var stream := Stream(s, arrivals, readError);
            && Ends(s, arrivals, readError, stream.events)
            && (stream.status.Aborted? <==> !NeverLate(s, arrivals))
            && (stream.status.Failed? <==> NeverLate(s, arrivals) && readError)
            && (stream.status.Completed? <==> NeverLate(s, arrivals) && !readError)
  {
    hide TooLate, Begun, EndsWith, Walked;
    AbortsExactly(s, arrivals);
    RunInv(s, arrivals);
    var w := Walked(s, arrivals);
    if w.status.Running? {
      RunBegun(s, arrivals);
      FinishInv(s.cfg, s.header, w);
      EndsWithEvent(s.cfg.single, w.events, ReadFailed);
      FinishBegun(s.cfg, w);
    } else {
      forall k | 0 <= k < |arrivals| && TooLate(s, arrivals[..k], arrivals[k])
        ensures EndsWith(s.cfg.single, Stream(s, arrivals, readError).events,
                         Unsorted(arrivals[k].row, arrivals[k].col))
      {
        LateEndsStream(s, arrivals, readError, k);
      }
    }
  }

  /** A cell comes too late exactly when a row at its own or past it is already
      on the wire. */
  lemma {:induction false} LateIsSent(s: Setup, before: seq<Arrival>, a: Arrival)
    requires Walked(s, before).status.Running?
    ensures TooLate(s, before, a) <==>
            && Kept(s.header, NextCell(s, before, a))
            && exists k :: 0 <= k < |Sent(Walked(s, before).events)| && Sent(Walked(s, before).events)[k].index >= a.row
  {
    RunInv(s, before);
    ConvertPlaces(Walked(s, before).batcher.table, a);
    hide Walked, Kept, Convert, FlatMap, Itemize, AllTidy;
    var sent := Sent(Walked(s, before).events);
    if sent != [] {
      assert sent[|sent| - 1].index == Walked(s, before).batcher.highestSent.value;
    }
  }
}
