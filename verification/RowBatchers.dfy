/** `RowBatcher` as the server runs it (`src/service.rs`): fields updated in
    place, events sent one by one into a channel whose client may go away. */
module RowBatchers {
  import opened Sequences
  import opened Contract
  import Strings = StringTables
  import B = Batching
  import opened Channels

  /** `merge_row_values` as its loop runs. */
  method MergeRowValues(into: seq<CellData>, from: seq<CellData>) returns (merged: seq<CellData>)
    ensures merged == B.Merge(into, from)
  {
    merged := into;
    if |from| > |into| {
      merged := merged + seq(|from| - |into|, _ => EMPTY_CELL);
    }
    ghost var resized := merged;
    for k := 0 to |from|
      invariant |merged| == Max(|into|, |from|)
      invariant forall c :: 0 <= c < k ==> merged[c] == B.MergedCell(into, from, c)
      invariant forall c :: k <= c < |merged| ==> merged[c] == resized[c]
    {
      if Carries(from[k]) {
        merged := merged[k := from[k]];
      }
    }
  }

  /** The loop of `send_new_strings`: chunk by chunk until none is left or the
      client is gone. */
  method SendChunks(strings: Strings.StringTable, tx: Channel<Event>) returns (ok: bool)
    requires strings.Valid() && tx.Valid()
    modifies strings`pending, tx
    ensures strings.Valid() && Delivered(old(tx.sent), old(Strings.Chunks(strings.pending, strings.nextId)), tx, ok)
    ensures ok ==> strings.pending == []
  {
    ghost var whole := tx.sent + Strings.Chunks(strings.pending, strings.nextId);
    hide Strings.Chunks, Strings.ChunkEnd, Seen;
    while true
      invariant strings.Valid() && tx.Valid()
      invariant tx.sent + Strings.Chunks(strings.pending, strings.nextId) == whole
      decreases |strings.pending|
    {
      ghost var sent := tx.sent;
      Strings.ChunksFirst(strings.pending, strings.nextId);
      var chunk := strings.TakeChunk();
      if chunk.None? {
        WholeSeen(whole, tx.patience);
        return true;
      }
      ghost var rest := Strings.Chunks(strings.pending, strings.nextId);
      ok := tx.Send(chunk.value);
      Underway(sent, [chunk.value], rest, tx.patience);
      if !ok {
        return false;
      }
    }
  }

  /** Part of a longer delivery: all of it that the client will ever have, or
      what is left to deliver. */
  lemma Underway(sent: seq<Event>, part: seq<Event>, rest: seq<Event>, patience: nat)
    ensures |sent + part| > patience ==>
              Seen(sent + part, patience) == Seen(sent + (part + rest), patience) && |sent + (part + rest)| > patience
    ensures |sent + part| <= patience ==> Seen(sent + part, patience) + rest == sent + (part + rest)
  {
    DeliveredThen(sent, part, rest, patience);
  }

  /** A batcher whose pending entries have gone out, and the events that took
      them. */
  function WithNewStrings(b: B.Batcher): (B.Batcher, seq<Event>)
    requires B.ValidTable(b.table)
  {
    (b.(table := B.NewStrings(b.table).0), B.NewStrings(b.table).1)
  }

  /** A batcher whose pending entries and then these rows have gone out, and
      the events that took them. */
  function WithRows(cfg: B.Config, b: B.Batcher, sorted: seq<Row>): (B.Batcher, seq<Event>)
    requires B.ValidTable(b.table) && sorted != []
  {
    var (b', chunks) := WithNewStrings(b);
    var last := sorted[|sorted| - 1].index;
    (b'.(nextExpected := Some(last + 1), highestSent := Some(last)),
     chunks + B.FlushFrom(cfg, [], sorted, b.nextExpected))
  }

  class RowBatcher {
    const cfg: B.Config
    const strings: Strings.StringTable?
    var rows: seq<Row>
    var pendingBytes: nat
    var openedAt: Option<nat>
    var nextExpected: Option<nat>
    var highestSent: Option<nat>
    /** Rows pushed so far, which is how the clock's answers are told apart. */
    var pushes: nat

    /** The byte count is always the estimate of what is queued, and a batch
        has an opening time exactly while it holds rows. */
    ghost predicate Valid()
      reads this, strings
    {
      && 0 < cfg.cap
      && pendingBytes == B.ApproxBytes(rows)
      && (openedAt.Some? <==> rows != [])
      && (strings != null ==> strings.Valid())
    }

    ghost function State(): (b: B.Batcher)
      requires Valid()
      reads this, strings
      ensures B.ValidTable(b.table)
    {
      B.Batcher(rows, nextExpected, highestSent, pushes,
                if strings == null then None else Some(strings.State()))
    }

    /** The client was sent `r`'s events after `before`, as far as it stays, and
        if it stays the fields are `r`'s batcher. */
    ghost predicate After(before: seq<Event>, r: (B.Batcher, seq<Event>), tx: Channel<Event>, ok: bool)
      requires Valid()
      reads this, strings, tx
    {
      Delivered(before, r.1, tx, ok) && (ok ==> State() == r.0)
    }

    constructor (maxRowsPerMessage: nat, strings: Strings.StringTable?,
                 expired: nat -> bool, tie: (Row, Row) -> bool)
      requires strings != null ==> strings.Valid()
      ensures Valid() && this.strings == strings
      ensures cfg == B.Configure(maxRowsPerMessage, expired, tie)
      ensures State() == B.NewBatcher(None, if strings == null then None else Some(strings.State()))
    {
      cfg := B.Configure(maxRowsPerMessage, expired, tie);
      this.strings := strings;
      rows, pendingBytes, openedAt, nextExpected, highestSent, pushes := [], 0, None, None, None, 0;
    }

    method OpenAt(row: nat)
      requires Valid()
      modifies this`nextExpected
      ensures Valid() && State() == old(State()).(nextExpected := Some(row))
    {
      nextExpected := Some(row);
    }

    predicate Accepts(row: nat)
      reads this
    {
      highestSent.None? || row > highestSent.value
    }

    /** The chunks of all pending entries are delivered as far as the client
        stays, and after that nothing is pending. */
    method SendNewStrings(tx: Channel<Event>) returns (ok: bool)
      requires Valid() && tx.Valid()
      modifies strings, tx
      ensures Valid() && After(old(tx.sent), WithNewStrings(old(State())), tx, ok)
    {
      if strings == null {
        assert tx.sent + [] == tx.sent;
        return true;
      }
      hide Strings.Chunks, B.ApproxBytes;
      ok := SendChunks(strings, tx);
    }

    /** The gap up to `run` goes out ahead of it, and both indices end at the
        run's last row. */
    method SendRun(tx: Channel<Event>, run: seq<Row>) returns (ok: bool)
      requires Valid() && tx.Valid()
      modifies this`nextExpected, this`highestSent, tx
      ensures Valid()
      ensures Delivered(old(tx.sent), B.SendRun(cfg, run, old(nextExpected)), tx, ok)
      ensures ok && run != [] ==>
                && nextExpected == Some(run[|run| - 1].index + 1)
                && highestSent == Some(run[|run| - 1].index)
      ensures ok && run == [] ==> nextExpected == old(nextExpected) && highestSent == old(highestSent)
    {
      if run == [] {
        assert tx.sent + [] == tx.sent;
        return true;
      }
      ghost var before := tx.sent;
      ghost var announced, carried := B.Announced(run[0].index, nextExpected), B.Carried(cfg, run);
      DeliveredThen(before, announced, carried, tx.patience);
      assert before + [] == before;
      var first: nat, last: nat := run[0].index, run[|run| - 1].index;
      if nextExpected.Some? && first > nextExpected.value {
        ok := tx.Send(RowGap(nextExpected.value, first - nextExpected.value));
        if !ok {
          return false;
        }
      }
      nextExpected := Some(last + 1);
      highestSent := Some(last);
      assert tx.sent == before + announced;
      if cfg.single {
        ok := SendSingly(tx, run);
      } else {
        ok := tx.Send(Rows(run));
      }
    }

    method SendSingly(tx: Channel<Event>, run: seq<Row>) returns (ok: bool)
      requires tx.Valid() && cfg.single
      modifies tx
      ensures Delivered(old(tx.sent), B.Carried(cfg, run), tx, ok)
    {
      ghost var before, carried := tx.sent, B.Carried(cfg, run);
      assert carried[0..] == carried;
      for k := 0 to |run|
        invariant tx.Valid() && tx.sent + carried[k..] == before + carried
      {
        ghost var sent := tx.sent;
        assert carried[k..] == [carried[k]] + carried[k + 1..];
        ok := tx.Send(OneRow(run[k]));
        Underway(sent, [carried[k]], carried[k + 1..], tx.patience);
        if !ok {
          return false;
        }
      }
      assert tx.sent + [] == tx.sent;
      return true;
    }

    /** The client receives the events of `Batching.Flush` as far as it stays,
        and a client that stays leaves the queue and the table's pending entries
        empty. */
    method Flush(tx: Channel<Event>) returns (ok: bool)
      requires Valid() && tx.Valid()
      modifies this`rows, this`pendingBytes, this`openedAt, this`nextExpected, this`highestSent, strings, tx
      ensures Valid() && After(old(tx.sent), B.Flush(cfg, old(State())), tx, ok)
    {
      if rows == [] {
        assert tx.sent + [] == tx.sent;
        return true;
      }
      FlushParts(cfg, State());
      hide B.Flush, B.SortRows, B.FlushFrom, B.ApproxBytes, B.NewStrings, WithRows, After;
      var queued := B.SortRows(rows, cfg.tie);
      openedAt, pendingBytes, rows := None, 0, [];
      ok := SendQueued(tx, queued);
    }

    /** New strings first, then the rows that refer to them. */
    method SendQueued(tx: Channel<Event>, queued: seq<Row>) returns (ok: bool)
      requires Valid() && tx.Valid() && queued != []
      modifies this`nextExpected, this`highestSent, strings, tx
      ensures Valid() && After(old(tx.sent), WithRows(cfg, old(State()), queued), tx, ok)
    {
      hide B.FlushFrom, B.ApproxBytes, B.NewStrings, Seen;
      ghost var before, strings', runs :=
        tx.sent, WithNewStrings(State()).1, B.FlushFrom(cfg, [], queued, nextExpected);
      DeliveredThen(before, strings', runs, tx.patience);
      ok := SendNewStrings(tx);
      if !ok {
        return false;
      }
      ok := SendRuns(tx, queued);
    }

    /** The loop of `flush`: collect a run until the next row breaks it. */
    method SendRuns(tx: Channel<Event>, queued: seq<Row>) returns (ok: bool)
      requires Valid() && tx.Valid() && queued != []
      modifies this`nextExpected, this`highestSent, tx
      ensures Valid()
      ensures Delivered(old(tx.sent), B.FlushFrom(cfg, [], queued, old(nextExpected)), tx, ok)
      ensures ok ==> nextExpected == Some(queued[|queued| - 1].index + 1)
                     && highestSent == Some(queued[|queued| - 1].index)
    {
      ghost var whole := tx.sent + B.FlushFrom(cfg, [], queued, nextExpected);
      assert queued[0..] == queued;
      hide B.FlushFrom, B.SendRun, B.ApproxBytes, Seen;
      var run: seq<Row> := [];
      for k := 0 to |queued|
        invariant Valid() && tx.Valid()
        invariant tx.sent + B.FlushFrom(cfg, run, queued[k..], nextExpected) == whole
        invariant k > 0 ==> run != [] && run[|run| - 1] == queued[k - 1]
      {
        var row := queued[k];
        FlushGoesOn(cfg, run, queued, k, nextExpected);
        if run != [] && row.index != run[|run| - 1].index + 1 {
          ghost var sent, part := tx.sent, B.SendRun(cfg, run, nextExpected);
          ghost var rest := B.FlushFrom(cfg, [] + [row], queued[k + 1..], NextAfter(run, nextExpected));
          ok := SendRun(tx, run);
          Underway(sent, part, rest, tx.patience);
          if !ok {
            return false;
          }
          run := [];
        }
        run := run + [row];
      }
      LastRunOfFlush(cfg, run, queued[|queued|..], nextExpected);
      ok := SendRun(tx, run);
    }

    /** The queueing half of `push`: append past the last row, else merge into
        the queued row of this index or append; the byte count follows. */
    method QueueRow(index: RowIndex, values: seq<CellData>)
      requires Valid()
      modifies this`rows, this`pendingBytes, this`openedAt, this`pushes
      ensures Valid() && rows != []
      ensures rows == B.Enqueue(old(rows), Row(index, values)) && pushes == old(pushes) + 1
    {
      if rows == [] {
        openedAt := Some(pushes);
      }
      if rows == [] || index > rows[|rows| - 1].index {
        B.ApproxBytesAppend(rows, Row(index, values));
        pendingBytes := pendingBytes + B.ApproxRowBytes(values);
        rows := rows + [Row(index, values)];
      } else {
        var k := FindQueued(index);
        if k < |rows| {
          var merged := MergeRowValues(rows[k].values, values);
          rows := rows[k := Row(index, merged)];
        } else {
          rows := rows + [Row(index, values)];
        }
        pendingBytes := B.ApproxBytes(rows);
      }
      pushes := pushes + 1;
    }

    /** The client receives the events of `Batching.Push` as far as it stays,
        and the fields end as that function's batcher. */
    method Push(tx: Channel<Event>, index: RowIndex, values: seq<CellData>) returns (ok: bool)
      requires Valid() && tx.Valid()
      modifies this, strings, tx
      ensures Valid() && After(old(tx.sent), B.Push(cfg, old(State()), Row(index, values)), tx, ok)
    {
      hide B.Flush, B.Enqueue, B.ApproxBytes, B.NewStrings, FlatMap;
      QueueRow(index, values);
      assert B.Full(cfg, rows) <==> |rows| >= cfg.cap || pendingBytes >= B.MAX_BATCH_BYTES;
      if |rows| >= cfg.cap || pendingBytes >= B.MAX_BATCH_BYTES {
        ok := Flush(tx);
        return;
      }
      if (|rows| < B.LINGER_CHECK_EVERY || |rows| % B.LINGER_CHECK_EVERY == 0)
         && openedAt.Some? && cfg.expired(pushes - 1) {
        ok := Flush(tx);
        return;
      }
      assert tx.sent + [] == tx.sent;
      return true;
    }

    /** The first queued row of this index, or the length of the queue. */
    method FindQueued(index: nat) returns (k: nat)
      ensures k <= |rows|
      ensures k < |rows| ==> B.FindRow(rows, index) == Some(k)
      ensures k == |rows| ==> B.FindRow(rows, index) == None
    {
      k := 0;
      while k < |rows| && rows[k].index != index
        invariant k <= |rows|
        invariant forall j :: 0 <= j < k ==> rows[j].index != index
      {
        k := k + 1;
      }
    }
  }

  /** A flush is the queue emptied, and its rows sent in order. */
  lemma FlushParts(cfg: B.Config, b: B.Batcher)
    requires B.ValidTable(b.table) && b.rows != []
    ensures B.Flush(cfg, b) == WithRows(cfg, b.(rows := []), B.SortRows(b.rows, cfg.tie))
    ensures B.ApproxBytes([]) == 0
  {
  }

  /** One more row of the queue: it ends the run, or joins it. */
  lemma FlushGoesOn(cfg: B.Config, run: seq<Row>, queued: seq<Row>, k: nat, next: Option<nat>)
    requires k < |queued|
    ensures var row, later := queued[k], queued[k + 1..];
            B.FlushFrom(cfg, run, queued[k..], next) ==
            if run != [] && row.index != run[|run| - 1].index + 1 then
              B.SendRun(cfg, run, next) + B.FlushFrom(cfg, [] + [row], later, NextAfter(run, next))
            else B.FlushFrom(cfg, run + [row], later, next)
  {
    assert queued[k..][1..] == queued[k + 1..];
    assert [] + [queued[k]] == [queued[k]];
  }

  lemma LastRunOfFlush(cfg: B.Config, run: seq<Row>, rest: seq<Row>, next: Option<nat>)
    requires rest == []
    ensures B.FlushFrom(cfg, run, rest, next) == B.SendRun(cfg, run, next)
  {
  }
}
