/** `emit_range` as the server runs it (`src/service.rs`). */
module EmittingRange {
  import opened Sequences
  import opened DenseBudget
  import opened Contract
  import Strings = StringTables
  import B = Batching
  import opened Channels
  import opened Endings
  import opened RowBatchers
  import opened Ranges

  /** What a range stream has sent once the first `k` rows are pushed. */
  ghost function SentBy(cfg: B.Config, table: Option<Strings.Table>, range: Range, k: nat): (r: (B.Batcher, seq<Event>))
    requires ValidRange(range) && range.Range? && B.ValidTable(table) && k <= |range.rows|
    ensures B.ValidTable(r.0.table)
  {
    var (b, ev) := PushAll(cfg, B.NewBatcher(Some(range.startRow), table),
                           RangeRows(range.startRow, range.startCol, range.rows[..k]));
    (b, [Started] + ev)
  }

  lemma SentByNext(cfg: B.Config, table: Option<Strings.Table>, range: Range, k: nat)
    requires ValidRange(range) && range.Range? && B.ValidTable(table) && k < |range.rows|
    ensures var (b, ev) := SentBy(cfg, table, range, k);
            SentBy(cfg, table, range, k + 1) ==
            if AllEmpty(range.rows[k]) then (b, ev)
            else
              var row := Row(range.startRow + k, PaddedRow(range.startCol, range.rows[k]));
              (B.Push(cfg, b, row).0, ev + B.Push(cfg, b, row).1)
  {
    hide B.Push, AllEmpty;
    var rows := range.rows;
    assert rows[..k + 1][..k] == rows[..k] && rows[..k + 1][k] == rows[k];
    var before := RangeRows(range.startRow, range.startCol, rows[..k]);
    var row := Row(range.startRow + k, PaddedRow(range.startCol, rows[k]));
    assert (before + [row])[..|before|] == before;
    assert before + [] == before;
    var (b, ev) := PushAll(cfg, B.NewBatcher(Some(range.startRow), table), before);
    assert [Started] + (ev + B.Push(cfg, b, row).1) == [Started] + ev + B.Push(cfg, b, row).1;
  }

  /** What was sent by some row is where the whole stream begins. */
  lemma {:induction false} SentByGrows(cfg: B.Config, table: Option<Strings.Table>, range: Range, k: nat, max: nat)
    requires ValidRange(range) && range.Range? && B.ValidTable(table) && k <= |range.rows|
    requires RangeWithin(range, max)
    ensures SentBy(cfg, table, range, k).1 <= RangeStream(cfg, table, range, max)
    decreases |range.rows| - k
  {
    hide B.Push, B.Flush, AllEmpty, PushAll;
    if k == |range.rows| {
      assert range.rows[..k] == range.rows;
    } else {
      SentByNext(cfg, table, range, k);
      SentByGrows(cfg, table, range, k + 1, max);
    }
  }

  lemma SeenPrefix(some: seq<Event>, all: seq<Event>, patience: nat)
    requires some <= all && |some| > patience
    ensures Seen(all, patience) == Seen(some, patience)
  {
    assert all[..patience] == some[..patience];
  }

  /** What a client is to be sent for a range: only a refusal when its cells,
      counted from column A, are more than the budget, which counts as none when
      it is the largest 64-bit number; only the header for a range that holds
      nothing; and otherwise the header and then rows, gaps and chunks. */
  ghost predicate Answers(single: bool, range: Range, maxDenseCells: nat, events: seq<Event>) {
    if range.NoRange? then events == [Started]
    else if maxDenseCells < 0xFFFF_FFFF_FFFF_FFFF
         && |range.rows| * (range.startCol + range.width) > maxDenseCells then events == [Refused]
    else Begun(single, events)
  }

  lemma PushesOnTheWay(cfg: B.Config, b: B.Batcher, rows: seq<Row>)
    requires B.ValidTable(b.table)
    ensures AllOnTheWay(cfg.single, PushAll(cfg, b, rows).1)
  {
    if rows == [] {
    } else {
      hide B.Push, AllOnTheWay;
      var (b1, ev1) := PushAll(cfg, b, rows[..|rows| - 1]);
      PushesOnTheWay(cfg, b, rows[..|rows| - 1]);
      PushOnTheWay(cfg, b1, rows[|rows| - 1]);
      OnTheWayJoins(cfg.single, ev1, B.Push(cfg, b1, rows[|rows| - 1]).1);
    }
  }

  lemma {:induction false} RangeAnswers(cfg: B.Config, table: Option<Strings.Table>, range: Range, maxDenseCells: nat)
    requires ValidRange(range) && B.ValidTable(table)
    ensures Answers(cfg.single, range, maxDenseCells, RangeStream(cfg, table, range, maxDenseCells))
  {
    hide B.Push, B.Flush, PushAll, AllOnTheWay, DenseWithin;
    if range.Range? {
      WithinIs(|range.rows|, range.startCol + range.width, maxDenseCells);
      if RangeWithin(range, maxDenseCells) {
        var rows := RangeRows(range.startRow, range.startCol, range.rows);
        var (b, ev) := PushAll(cfg, B.NewBatcher(Some(range.startRow), table), rows);
        PushesOnTheWay(cfg, B.NewBatcher(Some(range.startRow), table), rows);
        FlushOnTheWay(cfg, b);
        NothingOnTheWay(cfg.single);
        BegunGrows(cfg.single, [Started], ev);
        BegunGrows(cfg.single, [Started] + ev, B.Flush(cfg, b).1);
      }
    }
  }

  /** What a client that stays receives. */
  lemma AnswersSo(cfg: B.Config, table: Option<Strings.Table>, range: Range, maxDenseCells: nat, patience: nat)
    requires ValidRange(range) && B.ValidTable(table)
    ensures var all := RangeStream(cfg, table, range, maxDenseCells);
            |all| <= patience ==> Answers(cfg.single, range, maxDenseCells, Seen(all, patience))
  {
    hide Answers, RangeStream;
    RangeAnswers(cfg, table, range, maxDenseCells);
  }

  /** The rows of a range once its header is sent: all but the blank ones, and
      then what is queued. */
  method PushRange(range: Range, ghost table: Option<Strings.Table>, ghost maxDenseCells: nat, batcher: RowBatcher,
                   tx: Channel<Event>)
    requires ValidRange(range) && range.Range? && RangeWithin(range, maxDenseCells)
    requires batcher.Valid() && tx.Valid() && B.ValidTable(table)
    requires (batcher.State(), tx.sent) == SentBy(batcher.cfg, table, range, 0)
    modifies batcher, batcher.strings, tx
    ensures tx.Valid() && tx.sent == Seen(RangeStream(batcher.cfg, table, range, maxDenseCells), tx.patience)
  {
    hide Seen, PushAll, RangeRows, B.Push, B.Flush, AllEmpty, PaddedRow, RangeWithin;
    ghost var all := RangeStream(batcher.cfg, table, range, maxDenseCells);
    for k := 0 to |range.rows|
      invariant batcher.Valid() && tx.Valid()
      invariant (batcher.State(), tx.sent) == SentBy(batcher.cfg, table, range, k)
    {
      SentByNext(batcher.cfg, table, range, k);
      SentByGrows(batcher.cfg, table, range, k + 1, maxDenseCells);
      if AllEmpty(range.rows[k]) {
        continue;
      }
      var ok := batcher.Push(tx, range.startRow + k, PaddedRow(range.startCol, range.rows[k]));
      WholeSeen(SentBy(batcher.cfg, table, range, k + 1).1, tx.patience);
      if !ok {
        SeenPrefix(SentBy(batcher.cfg, table, range, k + 1).1, all, tx.patience);
        return;
      }
    }
    assert range.rows[..|range.rows|] == range.rows;
    var ok := batcher.Flush(tx);
  }

  /** The whole range stream. Whatever the client's patience, it receives the
      first events of the stream the range describes, in order; and one that
      stays receives the refusal or the stream that it must. */
  method EmitRange(range: Range, maxDenseCells: nat, batcher: RowBatcher, tx: Channel<Event>)
    requires ValidRange(range) && batcher.Valid() && tx.Valid() && tx.sent == []
    requires batcher.State() == B.NewBatcher(None, if batcher.strings == null then None else Some(Strings.NEW_TABLE))
    modifies batcher, batcher.strings, tx
    ensures tx.Valid()
    ensures var table := if batcher.strings == null then None else Some(Strings.NEW_TABLE);
            && tx.sent == Seen(RangeStream(batcher.cfg, table, range, maxDenseCells), tx.patience)
            && (|RangeStream(batcher.cfg, table, range, maxDenseCells)| <= tx.patience ==>
                  Answers(batcher.cfg.single, range, maxDenseCells, tx.sent))
  {
    hide Seen, PushAll, RangeRows, B.Push, B.Flush, Answers;
    ghost var table := if batcher.strings == null then None else Some(Strings.NEW_TABLE);
    ghost var all := RangeStream(batcher.cfg, table, range, maxDenseCells);
    AnswersSo(batcher.cfg, table, range, maxDenseCells, tx.patience);
    if range.Range? && !DenseWithin(|range.rows|, range.startCol + range.width, maxDenseCells) {
      assert [] + [Refused] == all;
      var ok := tx.Send(Refused);
      return;
    }
    assert [] + [Started] == [Started];
    var ok := tx.Send(Started);
    if range.NoRange? {
      return;
    }
    NothingSentYet(batcher.cfg, table, range);
    if !ok {
      SentByGrows(batcher.cfg, table, range, 0, maxDenseCells);
      SeenPrefix([Started], all, tx.patience);
      return;
    }
    WholeSeen([Started], tx.patience);
    batcher.OpenAt(range.startRow);
    PushRange(range, table, maxDenseCells, batcher, tx);
  }

  lemma NothingSentYet(cfg: B.Config, table: Option<Strings.Table>, range: Range)
    requires ValidRange(range) && range.Range? && B.ValidTable(table)
    ensures SentBy(cfg, table, range, 0) == (B.NewBatcher(Some(range.startRow), table), [Started])
  {
    assert range.rows[..0] == [];
    assert [Started] + [] == [Started];
  }
}
