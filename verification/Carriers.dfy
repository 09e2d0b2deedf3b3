/** One row a message or many (`src/service.rs`): the carrier changes nothing
    else about a stream. */
module Carriers {
  import opened Sequences
  import opened Contract
  import opened Batching
  import opened Walking

  /** An event with its rows one by one. */
  function OneByOne(rows: seq<Row>): (events: seq<Event>)
    ensures |events| == |rows| && forall k :: 0 <= k < |rows| ==> events[k] == OneRow(rows[k])
  {
    seq(|rows|, k requires 0 <= k < |rows| => OneRow(rows[k]))
  }

  function SplitEvent(e: Event): seq<Event> {
    if e.Rows? then OneByOne(e.rows) else [e]
  }

  /** The stream as it would be with every row in a message of its own. */
  function Split(events: seq<Event>): seq<Event> {
    FlatMap(SplitEvent, events)
  }

  ghost predicate SameButCarrier(a: seq<Event>, b: seq<Event>) {
    Split(a) == Split(b)
  }

  lemma {:induction false} SplitKeeps(events: seq<Event>)
    requires forall k :: 0 <= k < |events| ==> !events[k].Rows?
    ensures Split(events) == events
  {
    if events == [] {
    } else {
      SplitKeeps(events[..|events| - 1]);
    }
  }

  lemma SplitJoins(a: seq<Event>, b: seq<Event>, c: seq<Event>, d: seq<Event>)
    requires SameButCarrier(a, b) && SameButCarrier(c, d)
    ensures SameButCarrier(a + c, b + d)
  {
    FlatMapAppend(SplitEvent, a, c);
    FlatMapAppend(SplitEvent, b, d);
  }

  // ---- through the batcher ----

  lemma CarriedSame(cfg: Config, single: bool, run: seq<Row>)
    ensures Split(Carried(cfg.(single := single), run)) == OneByOne(run)
  {
    if single {
      SplitKeeps(Carried(cfg.(single := single), run));
    } else {
      FlatMapOne(SplitEvent, Event.Rows(run));
    }
  }

  lemma SendRunSame(cfg: Config, single: bool, run: seq<Row>, next: Option<nat>)
    ensures SameButCarrier(SendRun(cfg, run, next), SendRun(cfg.(single := single), run, next))
  {
    if run != [] {
      CarriedSame(cfg, cfg.single, run);
      CarriedSame(cfg, single, run);
      assert cfg.(single := cfg.single) == cfg;
      var gap := Announced(run[0].index, next);
      SplitJoins(gap, gap, Carried(cfg, run), Carried(cfg.(single := single), run));
    }
  }

  lemma {:induction false} FlushFromSame(cfg: Config, single: bool, run: seq<Row>, rest: seq<Row>, next: Option<nat>)
    ensures SameButCarrier(FlushFrom(cfg, run, rest, next), FlushFrom(cfg.(single := single), run, rest, next))
    decreases |rest|
  {
    hide SameButCarrier, SendRun;
    SendRunSame(cfg, single, run, next);
    if rest == [] {
    } else {
      if run != [] && rest[0].index != run[|run| - 1].index + 1 {
        FlushFromSame(cfg, single, [rest[0]], rest[1..], NextAfter(run, next));
        SplitJoins(SendRun(cfg, run, next), SendRun(cfg.(single := single), run, next),
                   FlushFrom(cfg, [rest[0]], rest[1..], NextAfter(run, next)),
                   FlushFrom(cfg.(single := single), [rest[0]], rest[1..], NextAfter(run, next)));
      } else {
        FlushFromSame(cfg, single, run + [rest[0]], rest[1..], next);
      }
    }
  }

  lemma FlushSame(cfg: Config, single: bool, b: Batcher)
    requires ValidTable(b.table)
    ensures Flush(cfg.(single := single), b).0 == Flush(cfg, b).0
    ensures SameButCarrier(Flush(cfg, b).1, Flush(cfg.(single := single), b).1)
  {
    hide FlushFrom, SortRows;
    if b.rows != [] {
      var sorted := SortRows(b.rows, cfg.tie);
      var chunks := NewStrings(b.table).1;
      FlushFromSame(cfg, single, [], sorted, b.nextExpected);
      SplitJoins(chunks, chunks, FlushFrom(cfg, [], sorted, b.nextExpected),
                 FlushFrom(cfg.(single := single), [], sorted, b.nextExpected));
    }
  }

  lemma PushSame(cfg: Config, single: bool, b: Batcher, row: Row)
    requires ValidTable(b.table)
    ensures Push(cfg.(single := single), b, row).0 == Push(cfg, b, row).0
    ensures SameButCarrier(Push(cfg, b, row).1, Push(cfg.(single := single), b, row).1)
  {
    hide Flush, Enqueue;
    FlushSame(cfg, single, b.(rows := Enqueue(b.rows, row), pushes := b.pushes + 1));
  }

  // ---- through the walk ----

  /** The same walk, but for the carrier of the rows already sent. */
  ghost predicate SameWalk(a: Walk, b: Walk) {
    a == b.(events := a.events) && SameButCarrier(a.events, b.events)
  }

  lemma PushedSame(cfg: Config, single: bool, v: Walk, w: Walk, row: Row)
    requires ValidTable(v.batcher.table) && SameWalk(v, w)
    ensures SameWalk(Pushed(cfg, v, row), Pushed(cfg.(single := single), w, row))
  {
    hide Push;
    PushSame(cfg, single, v.batcher, row);
    SplitJoins(v.events, w.events, Push(cfg, v.batcher, row).1, Push(cfg.(single := single), v.batcher, row).1);
  }

  lemma AbortSame(v: Walk, w: Walk, row: nat, col: nat)
    requires SameWalk(v, w)
    ensures SameWalk(Abort(v, row, col), Abort(w, row, col))
  {
    SplitJoins(v.events, w.events, [Unsorted(row, col)], [Unsorted(row, col)]);
  }

  lemma TakeSame(cfg: Config, single: bool, v: Walk, w: Walk, cell: Cell)
    requires ValidTable(v.batcher.table) && SameWalk(v, w)
    ensures SameWalk(Take(cfg, v, cell), Take(cfg.(single := single), w, cell))
  {
    hide Push, Placed, SameButCarrier;
    AbortSame(v, w, cell.row, cell.col);
    AbortSame(v, w, v.currentRow, 0);
    PushedSame(cfg, single, v, w, LateRow(cell));
    PushedSame(cfg, single, v, w, Row(v.currentRow, v.values));
  }

  lemma StepSame(cfg: Config, single: bool, header: Option<nat>, v: Walk, w: Walk, a: Arrival)
    requires ValidTable(v.batcher.table) && SameWalk(v, w)
    ensures SameWalk(Step(cfg, header, v, a), Step(cfg.(single := single), header, w, a))
  {
    hide Take, SameButCarrier;
    var (table, cell) := Convert(v.batcher.table, a);
    TakeSame(cfg, single, v.(batcher := v.batcher.(table := table)), w.(batcher := w.batcher.(table := table)), cell);
  }

  function WithCarrier(s: Setup, single: bool): Setup {
    s.(cfg := s.cfg.(single := single))
  }

  lemma {:induction false} WalkedSame(s: Setup, single: bool, arrivals: seq<Arrival>)
    ensures SameWalk(Walked(s, arrivals), Walked(WithCarrier(s, single), arrivals))
  {
    hide Step, SameButCarrier;
    if arrivals == [] {
      SameAsItself(Walked(s, []));
    } else {
      WalkedSame(s, single, arrivals[..|arrivals| - 1]);
      StepSame(s.cfg, single, s.header, Walked(s, arrivals[..|arrivals| - 1]),
               Walked(WithCarrier(s, single), arrivals[..|arrivals| - 1]), arrivals[|arrivals| - 1]);
    }
  }

  lemma SameAsItself(w: Walk)
    ensures SameWalk(w, w)
  {
  }

  lemma FinishSame(cfg: Config, single: bool, v: Walk, w: Walk)
    requires ValidTable(v.batcher.table) && SameWalk(v, w)
    ensures SameWalk(Finish(cfg, v), Finish(cfg.(single := single), w))
  {
    hide Push, Flush, SameButCarrier;
    if v.status.Running? {
      AbortSame(v, w, v.currentRow, 0);
      PushedSame(cfg, single, v, w, Row(v.currentRow, v.values));
      var (v', w') := if v.open then (Pushed(cfg, v, Row(v.currentRow, v.values)),
                                      Pushed(cfg.(single := single), w, Row(w.currentRow, w.values)))
                      else (v, w);
      assert ValidTable(v'.batcher.table);
      FlushSame(cfg, single, v'.batcher);
      SplitJoins(v'.events, w'.events, Flush(cfg, v'.batcher).1, Flush(cfg.(single := single), w'.batcher).1);
    }
  }

  // ---- what a client sees ----

  lemma {:induction false} SplitSeen(events: seq<Event>)
    ensures Items(Split(events)) == Items(events)
    ensures Sent(Split(events)) == Sent(events)
    ensures Dictionary(Split(events)) == Dictionary(events)
  {
    if events == [] {
    } else {
      var n := |events| - 1;
      SplitSeen(events[..n]);
      var e := events[n];
      FlatMapAppend(EventItems, Split(events[..n]), SplitEvent(e));
      FlatMapAppend(EventRows, Split(events[..n]), SplitEvent(e));
      FlatMapAppend(EventEntries, Split(events[..n]), SplitEvent(e));
      if e.Rows? {
        OneByOneSeen(e.rows);
      } else {
        FlatMapOne(EventItems, e);
        FlatMapOne(EventRows, e);
        FlatMapOne(EventEntries, e);
      }
    }
  }

  lemma {:induction false} OneByOneSeen(rows: seq<Row>)
    ensures Items(OneByOne(rows)) == RowItems(rows)
    ensures Sent(OneByOne(rows)) == rows
    ensures Dictionary(OneByOne(rows)) == []
  {
    if rows == [] {
    } else {
      var n := |rows| - 1;
      assert OneByOne(rows)[..n] == OneByOne(rows[..n]);
      OneByOneSeen(rows[..n]);
    }
  }

  /** Whichever carrier the rows come in, a stream is cut short at the same
      cell or not at all, sends the same row and gap items in the same order,
      and builds the same dictionary. */
  lemma {:induction false} CarrierChangesNothing(s: Setup, single: bool, arrivals: seq<Arrival>, readError: bool)
    ensures var v, w := Stream(s, arrivals, readError), Stream(WithCarrier(s, single), arrivals, readError);
            && v.status == w.status
            && Items(v.events) == Items(w.events)
            && Sent(v.events) == Sent(w.events)
            && Dictionary(v.events) == Dictionary(w.events)
  {
    hide Finish, Walked;
    WalkedSame(s, single, arrivals);
    var v, w := Walked(s, arrivals), Walked(WithCarrier(s, single), arrivals);
    if readError {
      SplitJoins(v.events, w.events, [ReadFailed], [ReadFailed]);
    } else {
      FinishSame(s.cfg, single, v, w);
    }
    SplitSeen(Stream(s, arrivals, readError).events);
    SplitSeen(Stream(WithCarrier(s, single), arrivals, readError).events);
  }

  /** Asking for the default and asking for one row a message are the same
      stream: one differs from the other in its carrier only. */
  lemma {:induction false} ZeroAndOneAgree(s: Setup, expired: nat -> bool, tie: (Row, Row) -> bool,
                        arrivals: seq<Arrival>, readError: bool)
    requires s.cfg == Configure(0, expired, tie)
    ensures var v := Stream(s, arrivals, readError);
            var w := Stream(s.(cfg := Configure(1, expired, tie)), arrivals, readError);
            && v.status == w.status
            && Items(v.events) == Items(w.events)
            && Dictionary(v.events) == Dictionary(w.events)
  {
    assert s.(cfg := Configure(1, expired, tie)) == WithCarrier(s, true);
    CarrierChangesNothing(s, true, arrivals, readError);
  }
}
