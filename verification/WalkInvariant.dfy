/** What every cell of the walk keeps, and what the client will be shown. */
module WalkInvariant {
  import opened Sequences
  import opened Contract
  import opened Batching
  import opened BatchingFacts
  import opened BatcherInvariant
  import opened Walking

  ghost predicate Below(rows: seq<Row>, high: nat) {
    forall k :: 0 <= k < |rows| ==> rows[k].index < high
  }

  /** A row under construction holds a value, is past every queued row, and can
      still be delivered; before there is one, nothing was queued or sent. */
  ghost predicate Open(header: Option<nat>, w: Walk) {
    if w.open then
      && Tidy(w.values)
      && Below(w.batcher.rows, w.currentRow)
      && Accepts(w.batcher, w.currentRow)
      && (header.Some? ==> header.value <= w.currentRow)
    else
      w.batcher.rows == [] && w.batcher.highestSent == None && w.values == []
  }

  ghost predicate WalkInv(header: Option<nat>, w: Walk) {
    Wire(header, w.batcher, w.events) && Open(header, w)
  }

  ghost predicate WalkClean(w: Walk) {
    Clean(w.batcher, w.events)
  }

  /** What a client is shown once the row under construction and the queue
      have gone out. */
  ghost function WalkView(w: Walk, row: nat, col: nat): Option<CellData> {
    if w.open && row == w.currentRow then CellAt(w.values, col)
    else View(w.batcher, w.events, row, col)
  }

  predicate Late(w: Walk, cell: Cell) {
    w.open && cell.row < w.currentRow
  }

  predicate BlindTake(w: Walk, cell: Cell) {
    Late(w, cell) && Accepts(w.batcher, cell.row) && BlindAppend(w.batcher.rows, cell.row)
  }

  // ---- what a push leaves queued ----

  lemma EnqueueBelow(rows: seq<Row>, row: Row, high: nat)
    requires Below(rows, high) && row.index < high
    ensures Below(Enqueue(rows, row), high)
  {
  }

  lemma NotBlind(rows: seq<Row>, index: nat)
    requires Below(rows, index)
    ensures !BlindAppend(rows, index)
  {
  }

  /** A push of a row short of `high` leaves the queue short of it, and leaves
      rows at `high` deliverable. */
  lemma PushBelow(cfg: Config, start: Option<nat>, b: Batcher, events: seq<Event>, row: Row, high: nat)
    requires Wire(start, b, events) && Accepts(b, row.index) && Tidy(row.values)
    requires start.Some? ==> start.value <= row.index
    requires Below(b.rows, high) && row.index < high
    requires Accepts(b, high)
    ensures Below(Push(cfg, b, row).0.rows, high) && Accepts(Push(cfg, b, row).0, high)
  {
    hide FlatMap, Itemize, Wire, Tidy, Enqueue, HasIndex;
    EnqueueBelow(b.rows, row, high);
    var rows := Enqueue(b.rows, row);
    var sorted := SortRows(rows, cfg.tie);
    if sorted != [] {
      LastIsQueued(rows, cfg.tie);
    }
  }

  lemma LastIsQueued(rows: seq<Row>, tie: (Row, Row) -> bool)
    requires rows != []
    ensures exists k :: 0 <= k < |rows| && rows[k].index == SortRows(rows, tie)[|rows| - 1].index
  {
    SortedFacts(rows, tie);
    IndexOf(SortRows(rows, tie), |rows| - 1);
  }

  // ---- one kept cell ------------------------------------------------------------

  lemma AbortWire(start: Option<nat>, b: Batcher, events: seq<Event>, e: Event)
    requires Wire(start, b, events) && (e.Unsorted? || e.ReadFailed?)
    ensures Wire(start, b, events + [e])
    ensures Sent(events + [e]) == Sent(events) && Items(events + [e]) == Items(events)
    ensures Dictionary(events + [e]) == Dictionary(events)
  {
    hide FlatMap, Itemize;
    SaysOne(e);
    SaysAppend(events, [e]);
    assert Sent(events) + [] == Sent(events);
    assert Items(events) + [] == Items(events);
  }

  /** A populated cell keeps a row tidy, or starts one. */
  lemma PlacedTidy(values: seq<CellData>, col: nat, data: CellData)
    requires Carries(data) && (values == [] || Tidy(values))
    ensures Tidy(Placed(values, col, data))
  {
  }

  lemma LateInv(cfg: Config, header: Option<nat>, w: Walk, cell: Cell)
    requires WalkInv(header, w) && Kept(header, cell) && Late(w, cell) && Accepts(w.batcher, cell.row)
    ensures WalkInv(header, Take(cfg, w, cell))
  {
    assert ValidTable(w.batcher.table);
    PlacedTidy([], cell.col, cell.data);
    hide Wire, Push, Placed, Tidy, Carries, Below;
    PushWire(cfg, header, w.batcher, w.events, LateRow(cell));
    PushBelow(cfg, header, w.batcher, w.events, LateRow(cell), w.currentRow);
  }

  lemma CloseBelow(cfg: Config, header: Option<nat>, w: Walk, high: nat)
    requires WalkInv(header, w) && w.open && w.currentRow < high
    ensures var b := Pushed(cfg, w, Row(w.currentRow, w.values)).batcher;
            Below(b.rows, high) && Accepts(b, high)
  {
    assert ValidTable(w.batcher.table);
    assert Below(w.batcher.rows, high);
    hide Wire, Push, Tidy, Below;
    PushBelow(cfg, header, w.batcher, w.events, Row(w.currentRow, w.values), high);
  }

  lemma ForwardInv(cfg: Config, header: Option<nat>, w: Walk, cell: Cell)
    requires WalkInv(header, w) && Kept(header, cell) && w.open && w.currentRow < cell.row
    ensures WalkInv(header, Take(cfg, w, cell))
    ensures Take(cfg, w, cell).status == w.status
  {
    assert ValidTable(w.batcher.table);
    PlacedTidy([], cell.col, cell.data);
    hide Wire, Push, Placed, Tidy, Carries, Below;
    CloseBelow(cfg, header, w, cell.row);
    PushWire(cfg, header, w.batcher, w.events, Row(w.currentRow, w.values));
  }

  lemma PlaceInv(cfg: Config, header: Option<nat>, w: Walk, cell: Cell)
    requires WalkInv(header, w) && Kept(header, cell) && (!w.open || w.currentRow == cell.row)
    ensures WalkInv(header, Take(cfg, w, cell)) && Accepts(w.batcher, cell.row)
    ensures Take(cfg, w, cell).status == w.status
  {
    PlacedTidy(w.values, cell.col, cell.data);
    hide Wire, Push, Placed, Tidy, Carries;
  }

  /** The walk's own invariant: any kept cell that does not end the stream
      keeps it. */
  lemma {:induction false} TakeInv(cfg: Config, header: Option<nat>, w: Walk, cell: Cell)
    requires WalkInv(header, w) && Kept(header, cell) && w.status.Running?
    ensures Take(cfg, w, cell).status.Running? ==> WalkInv(header, Take(cfg, w, cell))
    ensures Wire(header, Take(cfg, w, cell).batcher, Take(cfg, w, cell).events)
    // The one way a cell ends the stream, and the only abort site it reaches.
    ensures Take(cfg, w, cell).status.Aborted? <==> !Accepts(w.batcher, cell.row)
    ensures !Accepts(w.batcher, cell.row) ==> Take(cfg, w, cell) == Abort(w, cell.row, cell.col)
    ensures Take(cfg, w, cell).status.Aborted? || Take(cfg, w, cell).status.Running?
  {
    assert ValidTable(w.batcher.table);
    hide Wire, Push, Placed, Tidy, Below, Carries;
    if Late(w, cell) {
      if Accepts(w.batcher, cell.row) {
        LateInv(cfg, header, w, cell);
      } else {
        AbortWire(header, w.batcher, w.events, Unsorted(cell.row, cell.col));
      }
    } else if w.open && cell.row != w.currentRow {
      ForwardInv(cfg, header, w, cell);
    } else {
      PlaceInv(cfg, header, w, cell);
    }
  }

  lemma TakeClean(cfg: Config, header: Option<nat>, w: Walk, cell: Cell)
    requires WalkInv(header, w) && Kept(header, cell) && Accepts(w.batcher, cell.row)
    ensures WalkClean(Take(cfg, w, cell)) <==> WalkClean(w) && !BlindTake(w, cell)
  {
    hide Wire, Clean;
    if Late(w, cell) {
      PushClean(cfg, header, w.batcher, w.events, LateRow(cell));
    } else if w.open && cell.row != w.currentRow {
      NotBlind(w.batcher.rows, w.currentRow);
      PushClean(cfg, header, w.batcher, w.events, Row(w.currentRow, w.values));
    }
  }

  lemma LateView(cfg: Config, header: Option<nat>, w: Walk, cell: Cell, row: nat, col: nat)
    requires WalkInv(header, w) && Kept(header, cell) && WalkClean(w)
    requires Late(w, cell) && Accepts(w.batcher, cell.row) && !BlindTake(w, cell)
    ensures WalkView(Take(cfg, w, cell), row, col) ==
            if row == cell.row && col == cell.col then Some(cell.data) else WalkView(w, row, col)
  {
    hide Wire, Clean, View;
    PushView(cfg, header, w.batcher, w.events, LateRow(cell), row, col);
  }

  /** Nothing is queued or sent yet at or past the row under construction. */
  lemma NothingAhead(header: Option<nat>, w: Walk, row: nat, col: nat)
    requires WalkInv(header, w) && (w.open ==> w.currentRow <= row)
    ensures View(w.batcher, w.events, row, col) == None
  {
    ShownAbsentBelow(w.batcher.rows, row, col);
  }

  lemma ShownAbsentBelow(rows: seq<Row>, row: nat, col: nat)
    requires Below(rows, row)
    ensures Shown(rows, row, col) == None
  {
    ShownAbsent(rows, row, col);
  }

  lemma ForwardView(cfg: Config, header: Option<nat>, w: Walk, cell: Cell, row: nat, col: nat)
    requires WalkInv(header, w) && Kept(header, cell) && WalkClean(w)
    requires w.open && w.currentRow < cell.row
    ensures WalkView(Take(cfg, w, cell), row, col) ==
            if row == cell.row && col == cell.col then Some(cell.data) else WalkView(w, row, col)
  {
    hide Wire, Clean, View;
    NotBlind(w.batcher.rows, w.currentRow);
    PushView(cfg, header, w.batcher, w.events, Row(w.currentRow, w.values), row, col);
    NothingAhead(header, w, w.currentRow, col);
    if row == cell.row {
      NothingAhead(header, w, cell.row, col);
    }
  }

  lemma PlaceView(cfg: Config, header: Option<nat>, w: Walk, cell: Cell, row: nat, col: nat)
    requires WalkInv(header, w) && Kept(header, cell)
    requires !w.open || w.currentRow == cell.row
    ensures WalkView(Take(cfg, w, cell), row, col) ==
            if row == cell.row && col == cell.col then Some(cell.data) else WalkView(w, row, col)
  {
    hide Wire, View;
    if !w.open {
      NothingAhead(header, w, row, col);
    }
  }

  /** A kept cell that does not end the stream and is not queued blind changes
      what the client will be shown at its own position and nowhere else. */
  lemma {:induction false} TakeView(cfg: Config, header: Option<nat>, w: Walk, cell: Cell, row: nat, col: nat)
    requires WalkInv(header, w) && Kept(header, cell) && WalkClean(w)
    requires Accepts(w.batcher, cell.row) && !BlindTake(w, cell)
    ensures WalkView(Take(cfg, w, cell), row, col) ==
            if row == cell.row && col == cell.col then Some(cell.data) else WalkView(w, row, col)
  {
    hide Wire, WalkView, Clean;
    if Late(w, cell) {
      LateView(cfg, header, w, cell, row, col);
    } else if w.open && cell.row != w.currentRow {
      ForwardView(cfg, header, w, cell, row, col);
    } else {
      PlaceView(cfg, header, w, cell, row, col);
    }
  }
}
