/** Whole runs of the incremental stream, for every sequence of arrivals, every
    batch cap, header row, linger outcome and sort order of equal rows. */
module StreamTheorems {
  import opened Sequences
  import opened Contract
  import opened StringTables
  import opened Batching
  import opened BatchingFacts
  import opened BatcherInvariant
  import opened Walking
  import opened WalkInvariant

  /** The sheet's kept cells, as the stream converts them. */
  function Cells(s: Setup, arrivals: seq<Arrival>): seq<Cell> {
    KeptCells(s.header, Converted(s.useTable, arrivals))
  }

  /** The cell the next arrival becomes. */
  function NextCell(s: Setup, before: seq<Arrival>, a: Arrival): Cell {
    Convert(Walked(s, before).batcher.table, a).1
  }

  /** The next arrival is queued blind: the one push that can queue an index
      twice. */
  predicate BlindStep(s: Setup, before: seq<Arrival>, a: Arrival) {
    var w := Walked(s, before);
    var cell := NextCell(s, before, a);
    w.status.Running? && Kept(s.header, cell) && BlindTake(w, cell)
  }

  predicate NeverBlind(s: Setup, arrivals: seq<Arrival>) {
    arrivals != [] ==>
      var before := arrivals[..|arrivals| - 1];
      NeverBlind(s, before) && !BlindStep(s, before, arrivals[|arrivals| - 1])
  }

  /** The next arrival is a kept cell of a row at or before one already sent. */
  predicate TooLate(s: Setup, before: seq<Arrival>, a: Arrival) {
    var w := Walked(s, before);
    var cell := NextCell(s, before, a);
    w.status.Running? && Kept(s.header, cell) && !Accepts(w.batcher, cell.row)
  }

  // ---- conversion does not depend on what was sent ------------------------------

  predicate SameIds(a: Option<Table>, b: Option<Table>) {
    if a.None? || b.None? then a == b
    else a.value.index == b.value.index && a.value.nextId == b.value.nextId
  }

  lemma ConvertSame(a: Option<Table>, b: Option<Table>, arrival: Arrival)
    requires SameIds(a, b)
    ensures SameIds(Convert(a, arrival).0, Convert(b, arrival).0)
    ensures Convert(a, arrival).1 == Convert(b, arrival).1
  {
  }

  lemma PushKeepsIds(cfg: Config, b: Batcher, row: Row)
    requires ValidTable(b.table)
    ensures SameIds(b.table, Push(cfg, b, row).0.table)
  {
  }

  lemma TakeIds(cfg: Config, w: Walk, cell: Cell)
    requires ValidTable(w.batcher.table)
    ensures SameIds(w.batcher.table, Take(cfg, w, cell).batcher.table)
  {
    assert SameIds(w.batcher.table, w.batcher.table);
    hide Push, Placed, Accepts, SameIds;
    PushKeepsIds(cfg, w.batcher, LateRow(cell));
    PushKeepsIds(cfg, w.batcher, Row(w.currentRow, w.values));
  }

  lemma StepIds(cfg: Config, header: Option<nat>, w: Walk, a: Arrival)
    requires ValidTable(w.batcher.table) && w.status.Running?
    ensures SameIds(Convert(w.batcher.table, a).0, Step(cfg, header, w, a).batcher.table)
  {
    var (table, cell) := Convert(w.batcher.table, a);
    assert ValidTable(table) && SameIds(table, table);
    hide Take, Convert, SameIds, Kept;
    TakeIds(cfg, w.(batcher := w.batcher.(table := table)), cell);
  }

  lemma SameIdsThrough(a: Option<Table>, b: Option<Table>, c: Option<Table>)
    requires SameIds(a, b) && SameIds(b, c)
    ensures SameIds(a, c)
  {
  }

  lemma {:induction false} WalkedIds(s: Setup, arrivals: seq<Arrival>)
    requires Walked(s, arrivals).status.Running?
    ensures SameIds(Interning(s.useTable, arrivals), Walked(s, arrivals).batcher.table)
  {
    if arrivals == [] {
    } else {
      var before, a := arrivals[..|arrivals| - 1], arrivals[|arrivals| - 1];
      var w := Walked(s, before);
      assert w.status.Running?;
      WalkedIds(s, before);
      hide Step, Convert, SameIds;
      ConvertSame(Interning(s.useTable, before), w.batcher.table, a);
      StepIds(s.cfg, s.header, w, a);
      SameIdsThrough(Interning(s.useTable, arrivals), Convert(w.batcher.table, a).0, Walked(s, arrivals).batcher.table);
    }
  }

  /** One arrival adds its own cell to the sheet, or none. */
  lemma CellsGrow(s: Setup, before: seq<Arrival>, a: Arrival)
    requires Walked(s, before).status.Running?
    ensures Cells(s, before + [a]) ==
            Cells(s, before) + if Kept(s.header, NextCell(s, before, a)) then [NextCell(s, before, a)] else []
  {
    WalkedIds(s, before);
    ConvertSame(Interning(s.useTable, before), Walked(s, before).batcher.table, a);
    assert (before + [a])[..|before|] == before;
    var cells := Converted(s.useTable, before + [a]);
    assert cells[..|cells| - 1] == Converted(s.useTable, before);
  }

  // ---- invariants of every run --------------------------------------------------

  lemma BeginInv(s: Setup)
    ensures WalkInv(s.header, Walked(s, [])) && WalkClean(Walked(s, []))
    ensures forall row: nat, col: nat :: WalkView(Walked(s, []), row, col) == None
  {
    SaysOne(Started);
    hide FlatMap;
    forall row: nat, col: nat
      ensures WalkView(Walked(s, []), row, col) == None
    {
      NothingShown(row, col);
    }
  }

  /** The walk just before the next cell is taken. */
  function Ready(s: Setup, before: seq<Arrival>, a: Arrival): Walk {
    var w := Walked(s, before);
    w.(batcher := w.batcher.(table := Convert(w.batcher.table, a).0))
  }

  lemma WalkedStep(s: Setup, before: seq<Arrival>, a: Arrival)
    ensures Walked(s, before + [a]) == Step(s.cfg, s.header, Walked(s, before), a)
  {
    assert (before + [a])[..|before|] == before;
  }

  lemma ReadyInv(s: Setup, before: seq<Arrival>, a: Arrival)
    requires WalkInv(s.header, Walked(s, before))
    ensures WalkInv(s.header, Ready(s, before, a))
  {
    var w := Walked(s, before);
  }

  ghost predicate RunOk(s: Setup, w: Walk) {
    && (w.status.Running? || w.status.Aborted?)
    && Wire(s.header, w.batcher, w.events)
    && (w.status.Running? ==> WalkInv(s.header, w))
  }

  lemma StepInv(s: Setup, before: seq<Arrival>, a: Arrival)
    requires RunOk(s, Walked(s, before))
    ensures RunOk(s, Walked(s, before + [a]))
    ensures Walked(s, before).status.Running? ==>
              (Walked(s, before + [a]).status.Aborted? <==> TooLate(s, before, a))
    ensures Walked(s, before).status.Aborted? ==> Walked(s, before + [a]) == Walked(s, before)
  {
    WalkedStep(s, before, a);
    hide Wire;
    var w := Walked(s, before);
    if w.status.Running? {
      ReadyInv(s, before, a);
      var cell := NextCell(s, before, a);
      if Kept(s.header, cell) {
        TakeInv(s.cfg, s.header, Ready(s, before, a), cell);
      }
    }
  }

  /** Every run: the stream is well formed at every point, and the walk's own
      invariant holds while it runs. */
  lemma {:induction false} RunInv(s: Setup, arrivals: seq<Arrival>)
    ensures RunOk(s, Walked(s, arrivals))
  {
    if arrivals == [] {
      BeginInv(s);
    } else {
      var before, a := arrivals[..|arrivals| - 1], arrivals[|arrivals| - 1];
      assert before + [a] == arrivals;
      RunInv(s, before);
      StepInv(s, before, a);
    }
  }

  lemma {:induction false} AbortCause(s: Setup, arrivals: seq<Arrival>) returns (k: nat)
    requires Walked(s, arrivals).status.Aborted?
    ensures k < |arrivals| && TooLate(s, arrivals[..k], arrivals[k])
  {
    hide TooLate;
    k := |arrivals| - 1;
    var before, a := arrivals[..k], arrivals[k];
    assert before + [a] == arrivals;
    RunInv(s, before);
    StepInv(s, before, a);
    if !TooLate(s, before, a) {
      k := AbortCause(s, before);
      assert before[..k] == arrivals[..k];
    }
  }

  lemma {:induction false} AbortStays(s: Setup, arrivals: seq<Arrival>, k: nat)
    requires k < |arrivals| && TooLate(s, arrivals[..k], arrivals[k])
    ensures Walked(s, arrivals).status.Aborted?
  {
    var n := |arrivals| - 1;
    var before, a := arrivals[..n], arrivals[n];
    assert before + [a] == arrivals;
    RunInv(s, before);
    StepInv(s, before, a);
    if k == n {
    } else {
      assert before[..k] == arrivals[..k];
      AbortStays(s, before, k);
    }
  }

  /** A run is cut short exactly when some cell arrives too late: a kept cell
      of a row at or before one already sent. */
  lemma {:induction false} AbortsExactly(s: Setup, arrivals: seq<Arrival>)
    ensures Walked(s, arrivals).status.Aborted? <==>
            exists k :: 0 <= k < |arrivals| && TooLate(s, arrivals[..k], arrivals[k])
  {
    hide TooLate;
    if Walked(s, arrivals).status.Aborted? {
      var k := AbortCause(s, arrivals);
    }
    if k :| 0 <= k < |arrivals| && TooLate(s, arrivals[..k], arrivals[k]) {
      AbortStays(s, arrivals, k);
    }
  }

  lemma StepClean(s: Setup, before: seq<Arrival>, a: Arrival)
    requires RunOk(s, Walked(s, before)) && Walked(s, before).status.Running?
    requires !TooLate(s, before, a)
    ensures WalkClean(Walked(s, before + [a])) <==> WalkClean(Walked(s, before)) && !BlindStep(s, before, a)
  {
    WalkedStep(s, before, a);
    ReadyInv(s, before, a);
    ReadyView(s, before, a, 0, 0);
    hide Wire, WalkClean;
    var cell := NextCell(s, before, a);
    if Kept(s.header, cell) {
      TakeClean(s.cfg, s.header, Ready(s, before, a), cell);
    }
  }

  lemma {:induction false} RunClean(s: Setup, arrivals: seq<Arrival>)
    requires Walked(s, arrivals).status.Running?
    ensures WalkClean(Walked(s, arrivals)) <==> NeverBlind(s, arrivals)
  {
    if arrivals == [] {
      BeginInv(s);
    } else {
      hide WalkClean, BlindStep, TooLate;
      var before, a := arrivals[..|arrivals| - 1], arrivals[|arrivals| - 1];
      assert before + [a] == arrivals;
      RunInv(s, before);
      StepInv(s, before, a);
      RunClean(s, before);
      StepClean(s, before, a);
    }
  }

  lemma LatestAppend(cells: seq<Cell>, cell: Cell, row: nat, col: nat)
    ensures Latest(cells + [cell], row, col) ==
            if cell.row == row && cell.col == col then Some(cell.data) else Latest(cells, row, col)
  {
    assert (cells + [cell])[..|cells|] == cells;
  }

  /** While the run goes on, what a client will be shown is the sheet so far. */
  lemma {:induction false} RunView(s: Setup, arrivals: seq<Arrival>, row: nat, col: nat)
    requires Walked(s, arrivals).status.Running? && NeverBlind(s, arrivals)
    ensures WalkView(Walked(s, arrivals), row, col) == Latest(Cells(s, arrivals), row, col)
  {
    if arrivals == [] {
      BeginInv(s);
    } else {
      hide WalkView;
      var before, a := arrivals[..|arrivals| - 1], arrivals[|arrivals| - 1];
      assert before + [a] == arrivals;
      RunInv(s, before);
      RunClean(s, before);
      RunView(s, before, row, col);
      ReadyInv(s, before, a);
      ReadyView(s, before, a, row, col);
      CellsGrow(s, before, a);
      var cell := NextCell(s, before, a);
      if Kept(s.header, cell) {
        TakeInv(s.cfg, s.header, Ready(s, before, a), cell);
        TakeView(s.cfg, s.header, Ready(s, before, a), cell, row, col);
        LatestAppend(Cells(s, before), cell, row, col);
      } else {
        assert Cells(s, before) + [] == Cells(s, before);
      }
    }
  }

  lemma ReadyView(s: Setup, before: seq<Arrival>, a: Arrival, row: nat, col: nat)
    ensures WalkView(Ready(s, before, a), row, col) == WalkView(Walked(s, before), row, col)
    ensures WalkClean(Ready(s, before, a)) <==> WalkClean(Walked(s, before))
  {
  }

  // ---- the end of the sheet -------------------------------------------------------

  /** The two other abort sites are dead: a run whose cells are all taken
      completes. */
  lemma FinishInv(cfg: Config, header: Option<nat>, w: Walk)
    requires WalkInv(header, w) && w.status.Running?
    ensures var f := Finish(cfg, w);
            && f.status.Completed?
            && Wire(header, f.batcher, f.events)
            && f.batcher.rows == []
            && (WalkClean(f) <==> WalkClean(w))
  {
    assert ValidTable(w.batcher.table);
    hide Wire, Clean;
    var w' := if w.open then Pushed(cfg, w, Row(w.currentRow, w.values)) else w;
    if w.open {
      PushWire(cfg, header, w.batcher, w.events, Row(w.currentRow, w.values));
      NotBlind(w.batcher.rows, w.currentRow);
      PushClean(cfg, header, w.batcher, w.events, Row(w.currentRow, w.values));
    }
    FlushWire(cfg, header, w'.batcher, w'.events);
    FlushClean(cfg, header, w'.batcher, w'.events);
  }

  lemma FinishView(cfg: Config, header: Option<nat>, w: Walk, row: nat, col: nat)
    requires WalkInv(header, w) && w.status.Running? && WalkClean(w)
    ensures Shown(Sent(Finish(cfg, w).events), row, col) == WalkView(w, row, col)
  {
    FinishInv(cfg, header, w);
    var f := Finish(cfg, w);
    assert Shown(Sent(f.events), row, col) == View(f.batcher, f.events, row, col) by {
      AllSent(header, f.batcher, f.events, row, col);
    }
    assert ValidTable(w.batcher.table);
    hide Wire, Clean, View;
    var w' := if w.open then Pushed(cfg, w, Row(w.currentRow, w.values)) else w;
    if w.open {
      PushWire(cfg, header, w.batcher, w.events, Row(w.currentRow, w.values));
      NotBlind(w.batcher.rows, w.currentRow);
      PushClean(cfg, header, w.batcher, w.events, Row(w.currentRow, w.values));
      PushView(cfg, header, w.batcher, w.events, Row(w.currentRow, w.values), row, col);
      NothingAhead(header, w, w.currentRow, col);
    }
    FlushView(cfg, header, w'.batcher, w'.events, row, col);
  }

  lemma AllSent(header: Option<nat>, b: Batcher, events: seq<Event>, row: nat, col: nat)
    requires Wire(header, b, events) && b.rows == []
    ensures Shown(Sent(events), row, col) == View(b, events, row, col)
  {
    var sent := Sent(events);
    if !(b.highestSent.Some? && row <= b.highestSent.value) {
      ShownAbsent(sent, row, col);
    }
  }

  // ---- whole runs -----------------------------------------------------------------

  /** A stream completes exactly when it can be read to its end and no cell
      comes too late; no abort is left for the end of the sheet. */
  lemma {:induction false} CompletesExactly(s: Setup, arrivals: seq<Arrival>, readError: bool)
    ensures Stream(s, arrivals, readError).status.Completed? <==>
            !readError && forall k :: 0 <= k < |arrivals| ==> !TooLate(s, arrivals[..k], arrivals[k])
  {
    hide TooLate;
    RunInv(s, arrivals);
    AbortsExactly(s, arrivals);
    if Walked(s, arrivals).status.Running? {
      FinishInv(s.cfg, s.header, Walked(s, arrivals));
    }
  }

  lemma CompletedRan(s: Setup, arrivals: seq<Arrival>)
    requires Stream(s, arrivals, false).status.Completed?
    ensures Walked(s, arrivals).status.Running? && WalkInv(s.header, Walked(s, arrivals))
  {
    RunInv(s, arrivals);
  }

  /** A completed stream in which no row was queued blind shows the last kept
      cell of each position. */
  lemma {:induction false} CleanRun(s: Setup, arrivals: seq<Arrival>)
    requires Stream(s, arrivals, false).status.Completed? && NeverBlind(s, arrivals)
    ensures var sent := Sent(Stream(s, arrivals, false).events);
            && Ascending(sent) && AllTidy(sent)
            && forall row: nat, col: nat :: Shown(sent, row, col) == Latest(Cells(s, arrivals), row, col)
  {
    CompletedRan(s, arrivals);
    var w := Walked(s, arrivals);
    FinishInv(s.cfg, s.header, w);
    RunClean(s, arrivals);
    forall row: nat, col: nat
      ensures Shown(Sent(Finish(s.cfg, w).events), row, col) == Latest(Cells(s, arrivals), row, col)
    {
      FinishView(s.cfg, s.header, w, row, col);
      RunView(s, arrivals, row, col);
    }
  }

  /** What is on the wire is what a client will be shown, as far as it goes. */
  lemma SentIsShown(header: Option<nat>, w: Walk, row: nat, col: nat)
    requires WalkInv(header, w)
    ensures var sent := Sent(w.events);
            Shown(sent, row, col) ==
            if sent != [] && row <= sent[|sent| - 1].index then WalkView(w, row, col) else None
  {
    var sent := Sent(w.events);
    hide FlatMap, Tidy, AllTidy, Itemize, Below, Past, AtLeast, CellAt;
    if sent == [] {
      NothingShown(row, col);
    } else if row > sent[|sent| - 1].index {
      ShownAbsent(sent, row, col);
    }
  }

  lemma SentSoFar(s: Setup, arrivals: seq<Arrival>, row: nat, col: nat)
    requires Walked(s, arrivals).status.Running? && NeverBlind(s, arrivals)
    ensures var sent := Sent(Walked(s, arrivals).events);
            Shown(sent, row, col) ==
            if sent != [] && row <= sent[|sent| - 1].index then Latest(Cells(s, arrivals), row, col)
            else None
  {
    RunInv(s, arrivals);
    hide NeverBlind, Walked, FlatMap, Latest, Cells, Shown, WalkInv, WalkView, Wire;
    RunView(s, arrivals, row, col);
    SentIsShown(s.header, Walked(s, arrivals), row, col);
  }

  lemma EndSaysNothing(s: Setup, arrivals: seq<Arrival>, end: Walk)
    requires Walked(s, arrivals).status.Running?
    requires || end == Fail(Walked(s, arrivals))
             || exists a :: TooLate(s, arrivals, a) && end == Walked(s, arrivals + [a])
    ensures Sent(end.events) == Sent(Walked(s, arrivals).events)
  {
    var w := Walked(s, arrivals);
    RunInv(s, arrivals);
    if end == Fail(w) {
      AbortWire(s.header, w.batcher, w.events, ReadFailed);
    } else {
      var a :| TooLate(s, arrivals, a) && end == Walked(s, arrivals + [a]);
      WalkedStep(s, arrivals, a);
      ReadyInv(s, arrivals, a);
      var cell := NextCell(s, arrivals, a);
      TakeInv(s.cfg, s.header, Ready(s, arrivals, a), cell);
      AbortWire(s.header, w.batcher, w.events, Unsorted(cell.row, cell.col));
    }
  }

  /** Every stream, however it ends: its row events are the contract's
      rendering of the rows it sent, so every gap is exact. */
  lemma {:induction false} GapsAreExact(s: Setup, arrivals: seq<Arrival>, readError: bool)
    ensures var e := Stream(s, arrivals, readError).events;
            && Items(e) == Itemize(Sent(e), s.header)
            && GapsExact(Items(e), s.header)
  {
    RunInv(s, arrivals);
    var w := Walked(s, arrivals);
    if readError {
      if w.status.Running? { AbortWire(s.header, w.batcher, w.events, ReadFailed); }
    } else if w.status.Running? {
      FinishInv(s.cfg, s.header, w);
    }
    ItemizeGaps(Sent(Stream(s, arrivals, readError).events), s.header);
  }

  lemma KeptIsLatest(cells: seq<Cell>, k: nat)
    requires k < |cells|
    ensures Latest(cells, cells[k].row, cells[k].col).Some?
  {
    if k == |cells| - 1 {
    } else {
      KeptIsLatest(cells[..|cells| - 1], k);
    }
  }
}
