/** Where every row of a run is: sent, queued, or under construction; and what
    that says of the queue, for any input at all. */
module RowIndices {
  import opened Sequences
  import opened Contract
  import opened Batching
  import opened BatchingFacts
  import opened BatcherInvariant
  import opened Walking
  import opened WalkInvariant
  import opened Revisiting
  import opened StreamTheorems

  // ---- one push ----

  ghost predicate HeldIndex(b: Batcher, events: seq<Event>, i: nat) {
    HasIndex(Sent(events), i) || HasIndex(b.rows, i)
  }

  lemma IndicesJoin(a: seq<Row>, b: seq<Row>)
    ensures forall i: nat :: HasIndex(a + b, i) <==> HasIndex(a, i) || HasIndex(b, i)
  {
    var all := a + b;
    forall i: nat
      ensures HasIndex(all, i) <==> HasIndex(a, i) || HasIndex(b, i)
    {
      if k :| 0 <= k < |a| && a[k].index == i {
        assert all[k].index == i;
      }
      if k :| 0 <= k < |b| && b[k].index == i {
        assert all[|a| + k].index == i;
      }
    }
  }

  /** A flush loses no row index and makes none up. */
  lemma FlushIndices(cfg: Config, b: Batcher, events: seq<Event>)
    requires ValidTable(b.table)
    ensures forall i: nat :: HeldIndex(Flush(cfg, b).0, events + Flush(cfg, b).1, i) <==> HeldIndex(b, events, i)
  {
    if b.rows == [] {
      assert events + [] == events;
    } else {
      hide HasIndex, FlatMap, SortRows, FlushFrom, Itemize;
      FlushedEvents(cfg, b, events);
      SortedFacts(b.rows, cfg.tie);
      IndicesJoin(Sent(events), SortRows(b.rows, cfg.tie));
      NoIndices();
    }
  }

  lemma NoIndices()
    ensures forall i: nat :: !HasIndex([], i)
  {
  }

  lemma PushIndices(cfg: Config, b: Batcher, events: seq<Event>, row: Row)
    requires ValidTable(b.table)
    ensures forall i: nat :: HeldIndex(Push(cfg, b, row).0, events + Push(cfg, b, row).1, i) <==>
                             HeldIndex(b, events, i) || i == row.index
  {
    PushEither(cfg, b, row);
    hide HasIndex, Enqueue, Flush, Push;
    EnqueueIndices(b.rows, row);
    FlushIndices(cfg, Queued(b, row), events);
    assert events + [] == events;
  }

  /** What a push leaves at the end of the queue. */
  ghost predicate PushedLast(rows: seq<Row>, index: nat, rows': seq<Row>) {
    rows' == []
    || rows'[|rows'| - 1].index ==
       if rows != [] && HasIndex(rows, index) && index <= rows[|rows| - 1].index then rows[|rows| - 1].index
       else index
  }

  lemma PushLast(cfg: Config, b: Batcher, row: Row)
    requires ValidTable(b.table)
    ensures PushedLast(b.rows, row.index, Push(cfg, b, row).0.rows)
  {
    hide SortRows, FlushFrom, NewStrings, Merge;
  }

  // ---- one cell ----

  /** The rows of the cells so far are those sent, queued or being built. */
  ghost predicate Tracked(w: Walk, cells: seq<Cell>) {
    && (w.open <==> cells != [])
    && forall i: nat :: HasRow(cells, i) <==> HeldIndex(w.batcher, w.events, i) || (w.open && w.currentRow == i)
  }

  /** And the row last gone back to, or left, is the row queued last. */
  ghost predicate OnTrail(w: Walk, cells: seq<Cell>) {
    && (w.open ==> Followed(cells).current == w.currentRow)
    && (w.batcher.rows != [] ==> Followed(cells).last == LastIndex(w.batcher.rows))
  }

  /** A row that can still be delivered was met exactly when it is queued or
      being built. */
  lemma MetIsQueued(header: Option<nat>, w: Walk, cells: seq<Cell>, row: nat)
    requires WalkInv(header, w) && Tracked(w, cells) && Accepts(w.batcher, row)
    ensures HasRow(cells, row) <==> HasIndex(w.batcher.rows, row) || (w.open && w.currentRow == row)
  {
    hide HasRow, HasIndex;
    SentIsBelow(Sent(w.events), row);
    assert HasRow(cells, row) <==> HeldIndex(w.batcher, w.events, row) || (w.open && w.currentRow == row);
  }

  lemma SentIsBelow(sent: seq<Row>, row: nat)
    requires NonDescending(sent)
    ensures sent == [] || row > sent[|sent| - 1].index ==> !HasIndex(sent, row)
  {
    assert forall k :: 0 <= k < |sent| ==> sent[k].index <= sent[|sent| - 1].index;
  }

  lemma TakeTracked(cfg: Config, header: Option<nat>, w: Walk, cell: Cell, cells: seq<Cell>)
    requires WalkInv(header, w) && Kept(header, cell) && Accepts(w.batcher, cell.row) && w.status.Running?
    requires Tracked(w, cells)
    ensures Tracked(Take(cfg, w, cell), cells + [cell])
  {
    TakeInv(cfg, header, w, cell);
    hide Wire, Open, Push, Tidy, HasRow, HeldIndex, Placed;
    var v := Take(cfg, w, cell);
    forall i: nat
      ensures HasRow(cells + [cell], i) <==> HeldIndex(v.batcher, v.events, i) || (v.open && v.currentRow == i)
    {
      HasRowMore(cells, cell, i);
      assert HasRow(cells, i) <==> HeldIndex(w.batcher, w.events, i) || (w.open && w.currentRow == i);
      if Late(w, cell) {
        PushIndices(cfg, w.batcher, w.events, LateRow(cell));
      } else if w.open && cell.row != w.currentRow {
        PushIndices(cfg, w.batcher, w.events, Row(w.currentRow, w.values));
      }
    }
  }

  lemma TakeOnTrail(cfg: Config, header: Option<nat>, w: Walk, cell: Cell, cells: seq<Cell>)
    requires WalkInv(header, w) && Kept(header, cell) && Accepts(w.batcher, cell.row) && w.status.Running?
    requires Tracked(w, cells) && OnTrail(w, cells)
    ensures OnTrail(Take(cfg, w, cell), cells + [cell])
    ensures BlindTake(w, cell) <==> RevisitStep(cells, Followed(cells), cell.row)
  {
    hide Wire, Tracked, OnTrail, Take, HasRow, Followed, Tidy;
    if Late(w, cell) {
      LateOnTrail(cfg, header, w, cell, cells);
    } else {
      ForwardOnTrail(cfg, header, w, cell, cells);
    }
  }

  /** The trail of a cell short of the furthest row, beside the queue it joins. */
  lemma TrailBack(cells: seq<Cell>, cell: Cell, rows: seq<Row>, rows': seq<Row>)
    requires cells != [] && cell.row < Followed(cells).current
    requires rows != [] ==> Followed(cells).last == LastIndex(rows)
    requires HasRow(cells, cell.row) <==> HasIndex(rows, cell.row)
    requires PushedLast(rows, cell.row, rows')
    ensures Followed(cells + [cell]).current == Followed(cells).current
    ensures rows' != [] ==> Followed(cells + [cell]).last == LastIndex(rows')
    ensures BlindAppend(rows, cell.row) <==> RevisitStep(cells, Followed(cells), cell.row)
  {
    FollowedStep(cells, cell);
    BlindIsQueued(rows, cell.row);
    hide HasRow, Followed, BlindAppend, HasIndex;
  }

  lemma LateOnTrail(cfg: Config, header: Option<nat>, w: Walk, cell: Cell, cells: seq<Cell>)
    requires WalkInv(header, w) && Kept(header, cell) && Accepts(w.batcher, cell.row) && Late(w, cell)
    requires Tracked(w, cells) && OnTrail(w, cells)
    ensures OnTrail(Take(cfg, w, cell), cells + [cell])
    ensures BlindTake(w, cell) <==> RevisitStep(cells, Followed(cells), cell.row)
  {
    ReadyTable(header, w);
    hide Wire, Tidy, Push, HasRow, Placed, HasIndex, Followed, BlindAppend, HeldIndex, Below, RevisitStep, PushedLast;
    LateIsQueued(header, w, cell, cells);
    PushLast(cfg, w.batcher, LateRow(cell));
    TrailBack(cells, cell, w.batcher.rows, Push(cfg, w.batcher, LateRow(cell)).0.rows);
  }

  lemma LateIsQueued(header: Option<nat>, w: Walk, cell: Cell, cells: seq<Cell>)
    requires WalkInv(header, w) && Tracked(w, cells) && Accepts(w.batcher, cell.row) && Late(w, cell)
    ensures HasRow(cells, cell.row) <==> HasIndex(w.batcher.rows, cell.row)
    ensures cells != []
  {
    MetIsQueued(header, w, cells, cell.row);
    hide HasRow, HasIndex, Wire, HeldIndex;
  }

  lemma ReadyTable(header: Option<nat>, w: Walk)
    requires WalkInv(header, w)
    ensures ValidTable(w.batcher.table)
  {
  }

  lemma ForwardOnTrail(cfg: Config, header: Option<nat>, w: Walk, cell: Cell, cells: seq<Cell>)
    requires WalkInv(header, w) && Kept(header, cell) && Accepts(w.batcher, cell.row) && !Late(w, cell)
    requires Tracked(w, cells) && OnTrail(w, cells)
    ensures OnTrail(Take(cfg, w, cell), cells + [cell])
    ensures BlindTake(w, cell) <==> RevisitStep(cells, Followed(cells), cell.row)
  {
    ReadyTable(header, w);
    hide Wire, Tidy, Push, HasRow, Placed, HasIndex, Followed, BlindAppend, HeldIndex, Below, PushedLast;
    FollowedStep(cells, cell);
    if w.open && cell.row != w.currentRow {
      LeftBehind(cfg, header, w);
    }
  }

  /** Closing the row under construction leaves it last in the queue. */
  lemma LeftBehind(cfg: Config, header: Option<nat>, w: Walk)
    requires WalkInv(header, w) && w.open
    ensures var rows := Pushed(cfg, w, Row(w.currentRow, w.values)).batcher.rows;
            rows != [] ==> LastIndex(rows) == Some(w.currentRow)
  {
    BelowLast(w.batcher.rows, w.currentRow);
    PushLast(cfg, w.batcher, Row(w.currentRow, w.values));
    hide Push, Wire, Tidy, Below, HasIndex;
  }

  lemma BlindIsQueued(rows: seq<Row>, index: nat)
    ensures BlindAppend(rows, index) <==> rows != [] && index > rows[|rows| - 1].index && HasIndex(rows, index)
    ensures HasIndex(rows, index) ==> rows != []
  {
  }

  lemma BelowLast(rows: seq<Row>, high: nat)
    requires Below(rows, high)
    ensures rows != [] ==> rows[|rows| - 1].index < high
    ensures !HasIndex(rows, high)
  {
  }

  // ---- whole runs ----

  lemma BeginTracked(s: Setup)
    ensures Tracked(Walked(s, []), []) && OnTrail(Walked(s, []), [])
  {
    SaysOne(Started);
    NoIndices();
  }

  lemma ReadyTracked(s: Setup, before: seq<Arrival>, a: Arrival, cells: seq<Cell>)
    requires Tracked(Walked(s, before), cells) && OnTrail(Walked(s, before), cells)
    ensures Tracked(Ready(s, before, a), cells) && OnTrail(Ready(s, before, a), cells)
    ensures Ready(s, before, a).status == Walked(s, before).status
    ensures BlindTake(Ready(s, before, a), NextCell(s, before, a)) <==>
            BlindTake(Walked(s, before), NextCell(s, before, a))
  {
    hide Walked, Convert, HasRow, HasIndex, FlatMap, Followed;
    assert forall i: nat :: HeldIndex(Ready(s, before, a).batcher, Ready(s, before, a).events, i) <==>
                            HeldIndex(Walked(s, before).batcher, Walked(s, before).events, i);
  }

  lemma StepTracked(s: Setup, before: seq<Arrival>, a: Arrival)
    requires Walked(s, before).status.Running? && WalkInv(s.header, Walked(s, before)) && !TooLate(s, before, a)
    requires Tracked(Walked(s, before), Cells(s, before)) && OnTrail(Walked(s, before), Cells(s, before))
    ensures Tracked(Walked(s, before + [a]), Cells(s, before + [a]))
    ensures OnTrail(Walked(s, before + [a]), Cells(s, before + [a]))
    ensures Revisits(Cells(s, before + [a])) <==> Revisits(Cells(s, before)) || BlindStep(s, before, a)
  {
    var cells, cell := Cells(s, before), NextCell(s, before, a);
    ReadyInv(s, before, a);
    ReadyTracked(s, before, a, cells);
    CellsGrow(s, before, a);
    WalkedStep(s, before, a);
    hide Walked, Tracked, OnTrail, WalkInv, Take, Followed, Cells, RevisitStep, Carries;
    if Kept(s.header, cell) {
      FollowedStep(cells, cell);
      TakeTracked(s.cfg, s.header, Ready(s, before, a), cell, cells);
      TakeOnTrail(s.cfg, s.header, Ready(s, before, a), cell, cells);
      StepRevisits(cells, cell);
    } else {
      assert cells + [] == cells;
    }
  }

  lemma StepRevisits(cells: seq<Cell>, cell: Cell)
    ensures Revisits(cells + [cell]) <==> Revisits(cells) || RevisitStep(cells, Followed(cells), cell.row)
  {
    FollowedStep(cells, cell);
    hide HasRow;
  }

  /** Whatever the settings, a row has been queued blind exactly when the sheet
      so far goes back to a row in the one way that cannot be repaired. */
  lemma {:induction false} RunTracked(s: Setup, arrivals: seq<Arrival>)
    requires Walked(s, arrivals).status.Running?
    ensures Tracked(Walked(s, arrivals), Cells(s, arrivals)) && OnTrail(Walked(s, arrivals), Cells(s, arrivals))
    ensures NeverBlind(s, arrivals) <==> !Revisits(Cells(s, arrivals))
  {
    if arrivals == [] {
      BeginTracked(s);
    } else {
      var before, a := arrivals[..|arrivals| - 1], arrivals[|arrivals| - 1];
      assert before + [a] == arrivals;
      RunInv(s, before);
      StepInv(s, before, a);
      hide Walked, Tracked, OnTrail, WalkInv, Cells, Revisits, TooLate, BlindStep, Wire;
      RunTracked(s, before);
      StepTracked(s, before, a);
    }
  }

  /** A completed stream sends a row for each row the sheet's kept cells have,
      and for no other. */
  lemma {:induction false} RowsSent(s: Setup, arrivals: seq<Arrival>)
    requires Stream(s, arrivals, false).status.Completed?
    ensures forall i: nat :: HasIndex(Sent(Stream(s, arrivals, false).events), i) <==> HasRow(Cells(s, arrivals), i)
  {
    CompletedRan(s, arrivals);
    RunTracked(s, arrivals);
    FinishTracked(s.cfg, s.header, Walked(s, arrivals), Cells(s, arrivals));
    hide Walked, Tracked, OnTrail, WalkInv, Cells, Finish, HasIndex, HasRow, FlatMap;
  }

  lemma FinishTracked(cfg: Config, header: Option<nat>, w: Walk, cells: seq<Cell>)
    requires WalkInv(header, w) && w.status.Running? && Tracked(w, cells)
    ensures forall i: nat :: HasIndex(Sent(Finish(cfg, w).events), i) <==> HasRow(cells, i)
  {
    FinishInv(cfg, header, w);
    ReadyTable(header, w);
    hide Wire, Push, Flush, HasRow, HasIndex, Tidy, FlatMap, Below, Clean;
    var w' := if w.open then Pushed(cfg, w, Row(w.currentRow, w.values)) else w;
    if w.open {
      PushIndices(cfg, w.batcher, w.events, Row(w.currentRow, w.values));
    }
    FlushIndices(cfg, w'.batcher, w'.events);
    NoIndices();
    var f := Finish(cfg, w);
    assert forall i: nat :: HeldIndex(f.batcher, f.events, i) <==> HasRow(cells, i);
  }
}
