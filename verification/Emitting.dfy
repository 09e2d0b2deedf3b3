/** `emit_incremental` as the server runs it (`src/service.rs`): a loop over the
    reader's cells that updates the row under construction and the batcher. */
module Emitting {
  import opened Sequences
  import opened Contract
  import Strings = StringTables
  import B = Batching
  import W = Walking
  import opened Channels
  import opened Endings
  import opened RowBatchers

  /** Convert one arrival, interning a shared string when there is a table. */
  method CellTuple(a: W.Arrival, table: Strings.StringTable?) returns (cell: W.Cell)
    requires table != null ==> table.Valid()
    modifies table
    ensures table != null ==> table.Valid()
    ensures (if table == null then None else Some(table.State()), cell) ==
            W.Convert(if table == null then None else Some(old(table.State())), a)
  {
    match a.raw
    case Plain(value) =>
      cell := W.Cell(a.row, a.col, CellData(value, a.formula, a.styleId));
    case Borrowed(token, text) =>
      if table == null {
        cell := W.Cell(a.row, a.col, CellData(Shared(text), a.formula, a.styleId));
      } else {
        var id := table.Intern(token, text);
        cell := W.Cell(a.row, a.col, CellData(SharedId(id), a.formula, a.styleId));
      }
  }

  /** `batcher`, `tx` and the loop's variables stand where the walk `w` does. */
  ghost predicate Stands(w: W.Walk, batcher: RowBatcher, tx: Channel<Event>,
                         open: bool, currentRow: RowIndex, values: seq<CellData>)
    reads batcher, batcher.strings, tx
  {
    && batcher.Valid() && tx.Valid()
    && w.status.Running?
    && batcher.State() == w.batcher
    && tx.sent == w.events
    && open == w.open && currentRow == w.currentRow && values == w.values
  }

  /** The walk after one more cell, and its events so far, which only grow. */
  lemma StepGrows(cfg: B.Config, header: Option<nat>, w: W.Walk, a: W.Arrival)
    requires B.ValidTable(w.batcher.table)
    ensures w.events <= W.Step(cfg, header, w, a).events
  {
  }

  lemma {:induction false} WalkedGrows(s: W.Setup, arrivals: seq<W.Arrival>, k: nat)
    requires k <= |arrivals|
    ensures W.Walked(s, arrivals[..k]).events <= W.Walked(s, arrivals).events
    ensures !W.Walked(s, arrivals[..k]).status.Running? ==> W.Walked(s, arrivals[..k]) == W.Walked(s, arrivals)
    decreases |arrivals| - k
  {
    if k == |arrivals| {
      assert arrivals[..k] == arrivals;
    } else {
      WalkedGrows(s, arrivals, k + 1);
      var next := arrivals[..k + 1];
      assert next[..k] == arrivals[..k] && next[k] == arrivals[k];
      StepGrows(s.cfg, s.header, W.Walked(s, arrivals[..k]), arrivals[k]);
    }
  }

  lemma StreamEnds(s: W.Setup, arrivals: seq<W.Arrival>)
    ensures W.Stream(s, arrivals, false) == W.Finish(s.cfg, W.Walked(s, arrivals))
    ensures W.Walked(s, arrivals).status.Running? ==>
              W.Stream(s, arrivals, true).events == W.Walked(s, arrivals).events + [ReadFailed]
  {
  }

  lemma WalkedNext(s: W.Setup, arrivals: seq<W.Arrival>, k: nat)
    requires k < |arrivals|
    ensures W.Walked(s, arrivals[..k + 1]) == W.Step(s.cfg, s.header, W.Walked(s, arrivals[..k]), arrivals[k])
  {
    var next := arrivals[..k + 1];
    assert next[..k] == arrivals[..k] && next[k] == arrivals[k];
  }

  /** A client gone at some point of the walk has all it will ever get. */
  lemma GoneIsGone(s: W.Setup, arrivals: seq<W.Arrival>, readError: bool, k: nat, some: seq<Event>, patience: nat)
    requires k <= |arrivals| && |some| > patience
    requires some <= W.Walked(s, arrivals[..k]).events
    ensures Seen(W.Stream(s, arrivals, readError).events, patience) == Seen(some, patience)
  {
    WalkedGrows(s, arrivals, k);
    assert W.Walked(s, arrivals).events <= W.Stream(s, arrivals, readError).events;
    var all := W.Stream(s, arrivals, readError).events;
    assert some == all[..|some|];
    assert all[..patience] == some[..patience];
  }

  /** One kept cell: the body of the walk's loop after its two filters. When
      it does not go on, either the stream was aborted or the client is gone. */
  method TakeCell(ghost w: W.Walk, cell: W.Cell, open: bool, currentRow: RowIndex, values: seq<CellData>,
                  batcher: RowBatcher, tx: Channel<Event>)
    returns (go: bool, open': bool, currentRow': RowIndex, values': seq<CellData>)
    requires Stands(w, batcher, tx, open, currentRow, values)
    modifies batcher, batcher.strings, tx
    ensures batcher.Valid() && tx.Valid()
    ensures go ==> Stands(W.Take(batcher.cfg, w, cell), batcher, tx, open', currentRow', values')
    ensures !go ==> tx.sent == Seen(W.Take(batcher.cfg, w, cell).events, tx.patience)
    ensures !go ==> W.Take(batcher.cfg, w, cell).status.Aborted?
                    || |W.Take(batcher.cfg, w, cell).events| > tx.patience
  {
    hide B.Push, Seen;
    open', currentRow', values' := open, currentRow, values;
    if open && cell.row < currentRow {
      if !batcher.Accepts(cell.row) {
        var ok := tx.Send(Unsorted(cell.row, cell.col));
        return false, open', currentRow', values';
      }
      var late := W.Placed([], cell.col, cell.data);
      go := batcher.Push(tx, cell.row, late);
      WholeSeen(W.Take(batcher.cfg, w, cell).events, tx.patience);
      return;
    }
    if open {
      if cell.row != currentRow {
        if !batcher.Accepts(currentRow) {
          var ok := tx.Send(Unsorted(currentRow, 0));
          return false, open', currentRow', values';
        }
        go := batcher.Push(tx, currentRow, values);
        WholeSeen(W.Take(batcher.cfg, w, cell).events, tx.patience);
        if !go {
          return;
        }
        values' := [];
        currentRow' := cell.row;
      }
    } else {
      currentRow' := cell.row;
      open' := true;
    }
    values' := W.Placed(values', cell.col, cell.data);
    go := true;
  }

  /** One turn of the loop: the next cell, its two filters, and the cell taken. */
  method TakeArrival(ghost w: W.Walk, a: W.Arrival, header: Option<nat>, open: bool, currentRow: RowIndex,
                     values: seq<CellData>, batcher: RowBatcher, tx: Channel<Event>)
    returns (go: bool, open': bool, currentRow': RowIndex, values': seq<CellData>)
    requires Stands(w, batcher, tx, open, currentRow, values)
    modifies batcher, batcher.strings, tx
    ensures batcher.Valid() && tx.Valid()
    ensures go ==> Stands(W.Step(batcher.cfg, header, w, a), batcher, tx, open', currentRow', values')
    ensures !go ==> tx.sent == Seen(W.Step(batcher.cfg, header, w, a).events, tx.patience)
    ensures !go ==> W.Step(batcher.cfg, header, w, a).status.Aborted?
                    || |W.Step(batcher.cfg, header, w, a).events| > tx.patience
  {
    hide W.Take, Seen, Strings.Interned;
    go, open', currentRow', values' := true, open, currentRow, values;
    var cell := CellTuple(a, batcher.strings);
    ghost var ready := w.(batcher := batcher.State());
    if header.Some? && cell.row < header.value {
      return;
    }
    if cell.data.value.Empty? && cell.data.formula.None? {
      return;
    }
    go, open', currentRow', values' := TakeCell(ready, cell, open, currentRow, values, batcher, tx);
  }

  /** The end of the sheet: the row under construction, then the queue. */
  method Complete(ghost w: W.Walk, open: bool, currentRow: RowIndex, values: seq<CellData>,
                  batcher: RowBatcher, tx: Channel<Event>)
    requires Stands(w, batcher, tx, open, currentRow, values)
    modifies batcher, batcher.strings, tx
    ensures tx.Valid() && tx.sent == Seen(W.Finish(batcher.cfg, w).events, tx.patience)
  {
    hide B.Push, B.Flush, FlatMap;
    if open {
      if !batcher.Accepts(currentRow) {
        var ok := tx.Send(Unsorted(currentRow, 0));
        return;
      }
      ghost var pushed := W.Pushed(batcher.cfg, w, Row(currentRow, values));
      ghost var flushed := B.Flush(batcher.cfg, pushed.batcher).1;
      var ok := batcher.Push(tx, currentRow, values);
      DeliveredThen(pushed.events, [], flushed, tx.patience);
      assert pushed.events + [] == pushed.events && [] + flushed == flushed;
      if !ok {
        return;
      }
    }
    var ok := batcher.Flush(tx);
  }

  /** What a client that stays receives. */
  lemma EndsSo(s: W.Setup, arrivals: seq<W.Arrival>, readError: bool, patience: nat)
    ensures var events := W.Stream(s, arrivals, readError).events;
            |events| <= patience ==> Ends(s, arrivals, readError, Seen(events, patience))
  {
    hide Ends, NeverLate, W.Stream;
    EndsExactly(s, arrivals, readError);
  }

  /** The loop over the reader's cells, up to their end or the stream's. */
  method WalkAll(ghost s: W.Setup, declaredRow: RowIndex, header: Option<nat>, arrivals: seq<W.Arrival>,
                 ghost readError: bool, batcher: RowBatcher, tx: Channel<Event>)
    returns (go: bool, open: bool, currentRow: RowIndex, values: seq<CellData>)
    requires s.cfg == batcher.cfg && s.header == header && s.declaredRow == declaredRow
    requires Stands(W.Walked(s, []), batcher, tx, false, declaredRow, [])
    modifies batcher, batcher.strings, tx
    ensures go ==> Stands(W.Walked(s, arrivals), batcher, tx, open, currentRow, values)
    ensures !go ==> tx.Valid() && tx.sent == Seen(W.Stream(s, arrivals, readError).events, tx.patience)
  {
    hide W.Walked, W.Stream, W.Step, Seen;
    open, currentRow, values := false, declaredRow, [];
    assert arrivals[..0] == [];
    var k := 0;
    while k < |arrivals|
      invariant k <= |arrivals|
      invariant Stands(W.Walked(s, arrivals[..k]), batcher, tx, open, currentRow, values)
    {
      WalkedNext(s, arrivals, k);
      go, open, currentRow, values :=
        TakeArrival(W.Walked(s, arrivals[..k]), arrivals[k], header, open, currentRow, values, batcher, tx);
      k := k + 1;
      if !go {
        StoppedIsStopped(s, arrivals, readError, k, tx.patience);
        return;
      }
    }
    assert arrivals[..k] == arrivals;
    go := true;
  }

  /** The whole incremental stream. Whatever the client's patience, it receives
      the first events of the stream the walk describes, in order; and a client
      that stays receives a stream that begins and ends as it must. */
  method EmitIncremental(declaredRow: RowIndex, header: Option<nat>,
                         arrivals: seq<W.Arrival>, readError: bool,
                         batcher: RowBatcher, tx: Channel<Event>)
    requires batcher.Valid() && tx.Valid() && tx.sent == []
    requires batcher.State() == B.NewBatcher(None, if batcher.strings == null then None else Some(Strings.NEW_TABLE))
    modifies batcher, batcher.strings, tx
    ensures var s := W.Setup(batcher.cfg, header, declaredRow, batcher.strings != null);
            && tx.Valid() && tx.sent == Seen(W.Stream(s, arrivals, readError).events, tx.patience)
            && (|W.Stream(s, arrivals, readError).events| <= tx.patience ==> Ends(s, arrivals, readError, tx.sent))
  {
    ghost var s := W.Setup(batcher.cfg, header, declaredRow, batcher.strings != null);
    EndsSo(s, arrivals, readError, tx.patience);
    hide Ends;
    assert arrivals[..0] == [];
    assert [] + [Started] == [Started];
    var ok := tx.Send(Started);
    if !ok {
      GoneIsGone(s, arrivals, readError, 0, [Started], tx.patience);
      return;
    }
    if header.Some? {
      batcher.OpenAt(header.value);
    }
    assert Stands(W.Walked(s, []), batcher, tx, false, declaredRow, []);
    StreamEnds(s, arrivals);
    hide W.Walked, W.Stream, W.Finish, Seen;
    var go, open, currentRow, values := WalkAll(s, declaredRow, header, arrivals, readError, batcher, tx);
    if go {
      if readError {
        ok := tx.Send(ReadFailed);
      } else {
        Complete(W.Walked(s, arrivals), open, currentRow, values, batcher, tx);
      }
    }
  }

  /** A stream that stops at some cell, by an abort or because the client has
      gone, has sent the client all of it. */
  lemma StoppedIsStopped(s: W.Setup, arrivals: seq<W.Arrival>, readError: bool, k: nat, patience: nat)
    requires k <= |arrivals|
    requires W.Walked(s, arrivals[..k]).status.Aborted? || |W.Walked(s, arrivals[..k]).events| > patience
    ensures Seen(W.Stream(s, arrivals, readError).events, patience) ==
            Seen(W.Walked(s, arrivals[..k]).events, patience)
  {
    if W.Walked(s, arrivals[..k]).status.Aborted? {
      WalkedGrows(s, arrivals, k);
    } else {
      GoneIsGone(s, arrivals, readError, k, W.Walked(s, arrivals[..k]).events, patience);
    }
  }
}
