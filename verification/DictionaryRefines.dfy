/** Completed streams of one sheet agree: across batch caps, carriers, linger
    outcomes and sort orders, and across dictionary and plain mode once ids
    are resolved. */
module DictionaryRefines {
  import opened Sequences
  import opened Contract
  import opened Batching
  import opened BatchingFacts
  import opened BatcherInvariant
  import opened Walking
  import opened StreamTheorems
  import opened Revisiting
  import opened WholeRuns
  import opened DictionaryMode

  // ---- the table a client ends up with -----------------------------------------------

  function Pending(b: Batcher): seq<Bytes> {
    if b.table.Some? then b.table.value.pending else []
  }

  lemma FlushEntries(cfg: Config, b: Batcher, events: seq<Event>)
    requires ValidTable(b.table)
    ensures Dictionary(events + Flush(cfg, b).1) + Pending(Flush(cfg, b).0) == Dictionary(events) + Pending(b)
  {
    if b.rows == [] {
      assert events + [] == events;
    } else {
      hide FlatMap;
      FlushedEvents(cfg, b, events);
      assert Pending(Flush(cfg, b).0) == [];
    }
  }

  lemma PushEntries(cfg: Config, b: Batcher, events: seq<Event>, row: Row)
    requires ValidTable(b.table)
    ensures Dictionary(events + Push(cfg, b, row).1) + Pending(Push(cfg, b, row).0) == Dictionary(events) + Pending(b)
  {
    assert Pending(Queued(b, row)) == Pending(b);
    hide FlatMap, Flush, Push, Enqueue, Pending;
    PushEither(cfg, b, row);
    if Push(cfg, b, row) == Flush(cfg, Queued(b, row)) {
      FlushEntries(cfg, Queued(b, row), events);
    } else {
      assert events + [] == events;
    }
  }

  function WalkEntries(w: Walk): seq<Bytes> {
    Dictionary(w.events) + Pending(w.batcher)
  }

  lemma TakeEntries(cfg: Config, w: Walk, cell: Cell)
    requires ValidTable(w.batcher.table)
    ensures WalkEntries(Take(cfg, w, cell)) == WalkEntries(w)
  {
    hide FlatMap, Push;
    SaysOne(Unsorted(cell.row, cell.col));
    SaysAppend(w.events, [Unsorted(cell.row, cell.col)]);
    SaysOne(Unsorted(w.currentRow, 0));
    SaysAppend(w.events, [Unsorted(w.currentRow, 0)]);
    assert Dictionary(w.events) + [] == Dictionary(w.events);
    PushEntries(cfg, w.batcher, w.events, LateRow(cell));
    PushEntries(cfg, w.batcher, w.events, Row(w.currentRow, w.values));
  }

  /** Every entry a stream has to send: none at all without a table. */
  function TableEntries(s: Setup, arrivals: seq<Arrival>): seq<Bytes> {
    if s.useTable then Entries(arrivals) else []
  }

  lemma {:induction false} RunEntries(s: Setup, arrivals: seq<Arrival>)
    requires Walked(s, arrivals).status.Running?
    ensures WalkEntries(Walked(s, arrivals)) == TableEntries(s, arrivals)
  {
    if arrivals == [] {
      SaysOne(Started);
    } else {
      var before, a := arrivals[..|arrivals| - 1], arrivals[|arrivals| - 1];
      assert before + [a] == arrivals;
      WalkedStep(s, before, a);
      RunEntries(s, before);
      WalkedIds(s, before);
      ConvertedEntries(s, before, a);
      hide FlatMap, Take, Convert, TableEntries;
      TakeEntries(s.cfg, Ready(s, before, a), NextCell(s, before, a));
    }
  }

  lemma ConvertedEntries(s: Setup, before: seq<Arrival>, a: Arrival)
    requires SameIds(Interning(s.useTable, before), Walked(s, before).batcher.table)
    requires WalkEntries(Walked(s, before)) == TableEntries(s, before)
    ensures WalkEntries(Ready(s, before, a)) == TableEntries(s, before + [a])
  {
    hide Walked, FlatMap;
    assert (before + [a])[..|before|] == before;
    if !s.useTable {
      NoTable(before);
    }
  }

  lemma CompletedEntries(s: Setup, arrivals: seq<Arrival>)
    requires Stream(s, arrivals, false).status.Completed?
    ensures Dictionary(Stream(s, arrivals, false).events) <= TableEntries(s, arrivals)
  {
    CompletedRan(s, arrivals);
    RunEntries(s, arrivals);
    hide FlatMap, Push, Flush;
    var w := Walked(s, arrivals);
    var row := Row(w.currentRow, w.values);
    PushEntries(s.cfg, w.batcher, w.events, row);
    var w' := if w.open then Pushed(s.cfg, w, row) else w;
    FlushEntries(s.cfg, w'.batcher, w'.events);
  }

  lemma {:induction false} SentIdsKnown(events: seq<Event>)
    requires AllDefined(events)
    ensures RowIdsKnown(Sent(events), |Dictionary(events)|)
  {
    if events == [] {
    } else {
      var n := |events| - 1;
      var before, e := events[..n], events[n];
      forall k | 0 <= k < n
        ensures EventDefined(before[..k], before[k])
      {
        assert before[..k] == events[..k];
      }
      SentIdsKnown(before);
      assert EventDefined(before, e);
      hide IdsKnown, EventDefined, AllDefined, Dictionary;
      assert Sent(events) == Sent(before) + EventRows(e);
    }
  }

  // ---- resolving rows -----------------------------------------------------------------

  lemma ResolvedWithMore(rows: seq<Row>, table: seq<Bytes>, more: seq<Bytes>)
    requires RowIdsKnown(rows, |table|) && table <= more
    ensures ResolvedRows(rows, table) == ResolvedRows(rows, more)
  {
    forall k | 0 <= k < |rows|
      ensures ResolvedRow(rows[k], table) == ResolvedRow(rows[k], more)
    {
      assert IdsKnown(rows[k].values, |table|);
    }
  }

  lemma ResolvedShown(rows: seq<Row>, table: seq<Bytes>, row: nat, col: nat)
    ensures Shown(ResolvedRows(rows, table), row, col) == ResolvedOption(Shown(rows, row, col), table)
  {
    if rows == [] {
    } else {
      var r, n := ResolvedRows(rows, table), |rows| - 1;
      assert r[..n] == ResolvedRows(rows[..n], table);
      ResolvedAt(rows[n], table, col);
      hide CellAt, ResolvedRow, ResolvedRows;
      ResolvedShown(rows[..n], table, row, col);
    }
  }

  lemma ResolvedAt(row: Row, table: seq<Bytes>, col: nat)
    ensures ResolvedRow(row, table).index == row.index
    ensures CellAt(ResolvedRow(row, table).values, col) == ResolvedOption(CellAt(row.values, col), table)
  {
  }

  /** Cells of a dictionary stream and of a plain one, position by position. */
  ghost predicate CellsMatch(d: seq<Cell>, p: seq<Cell>, table: seq<Bytes>) {
    |d| == |p| && forall k :: 0 <= k < |d| ==> StandsFor(d[k], p[k], table)
  }

  lemma {:induction false} KeptMatch(header: Option<nat>, d: seq<Cell>, p: seq<Cell>, table: seq<Bytes>)
    requires CellsMatch(d, p, table)
    ensures CellsMatch(KeptCells(header, d), KeptCells(header, p), table)
  {
    if d == [] {
    } else {
      var n := |d| - 1;
      assert StandsFor(d[n], p[n], table);
      assert Kept(header, d[n]) <==> Kept(header, p[n]);
      hide StandsFor, Kept;
      KeptMatch(header, d[..n], p[..n], table);
    }
  }

  lemma LatestMatch(d: seq<Cell>, p: seq<Cell>, table: seq<Bytes>, row: nat, col: nat)
    requires CellsMatch(d, p, table)
    ensures ResolvedOption(Latest(d, row, col), table) == Latest(p, row, col)
  {
    if d == [] {
    } else {
      var n := |d| - 1;
      assert StandsFor(d[n], p[n], table);
      LatestMatch(d[..n], p[..n], table, row, col);
    }
  }

  lemma MatchRevisits(d: seq<Cell>, p: seq<Cell>, table: seq<Bytes>)
    requires CellsMatch(d, p, table)
    ensures Revisits(d) <==> Revisits(p)
  {
    forall i | 0 <= i < |d|
      ensures d[i].row == p[i].row
    {
      assert StandsFor(d[i], p[i], table);
    }
    hide Followed;
    RowsDecide(d, p);
  }

  lemma StreamCellsMatch(s: Setup, p: Setup, arrivals: seq<Arrival>)
    requires s.useTable && !p.useTable && s.header == p.header && TokensAgree(arrivals)
    ensures CellsMatch(Cells(s, arrivals), Cells(p, arrivals), Entries(arrivals))
  {
    var d, q := Converted(true, arrivals), Converted(false, arrivals);
    ConvertedLength(true, arrivals);
    ConvertedLength(false, arrivals);
    forall k | 0 <= k < |d|
      ensures StandsFor(d[k], q[k], Entries(arrivals))
    {
      ConvertedResolves(arrivals, k, Entries(arrivals));
    }
    KeptMatch(s.header, d, q, Entries(arrivals));
  }

  // ---- completed streams agree ----------------------------------------------------------

  /** Of a sheet that revisits no row, whatever the batch cap, the carrier, the
      linger and the sort, two completed streams send the same rows and announce
      the same gaps. */
  lemma {:induction false} CompletedStreamsAgree(s: Setup, p: Setup, arrivals: seq<Arrival>)
    requires s.header == p.header && s.useTable == p.useTable
    requires Stream(s, arrivals, false).status.Completed? && Stream(p, arrivals, false).status.Completed?
    requires !Revisits(Cells(s, arrivals))
    ensures Sent(Stream(s, arrivals, false).events) == Sent(Stream(p, arrivals, false).events)
    ensures Items(Stream(s, arrivals, false).events) == Items(Stream(p, arrivals, false).events)
  {
    WholeRun(s, arrivals);
    WholeRun(p, arrivals);
    var a, b := Sent(Stream(s, arrivals, false).events), Sent(Stream(p, arrivals, false).events);
    hide Stream, FlatMap;
    RowsAreDetermined(a, b);
    GapsAreExact(s, arrivals, false);
    GapsAreExact(p, arrivals, false);
  }

  lemma ResolvedTidy(rows: seq<Row>, table: seq<Bytes>)
    requires AllTidy(rows) && Ascending(rows)
    ensures AllTidy(ResolvedRows(rows, table)) && Ascending(ResolvedRows(rows, table))
  {
    forall k | 0 <= k < |rows|
      ensures Tidy(ResolvedRows(rows, table)[k].values)
    {
      assert Tidy(rows[k].values);
    }
  }

  /** What a client has resolved with the table it was sent is what it would
      have resolved with every entry there is. */
  lemma ClientResolves(s: Setup, arrivals: seq<Arrival>)
    requires s.useTable && Stream(s, arrivals, false).status.Completed?
    ensures var d := Stream(s, arrivals, false).events;
            ResolvedRows(Sent(d), Dictionary(d)) == ResolvedRows(Sent(d), Entries(arrivals))
  {
    IdsDefinedFirst(s, arrivals, false);
    CompletedEntries(s, arrivals);
    hide Stream, FlatMap, Entries, AllDefined, RowIdsKnown;
    var d := Stream(s, arrivals, false).events;
    SentIdsKnown(d);
    ResolvedWithMore(Sent(d), Dictionary(d), Entries(arrivals));
  }

  lemma ResolvedGrid(s: Setup, p: Setup, arrivals: seq<Arrival>)
    requires s.header == p.header && s.useTable && !p.useTable && TokensAgree(arrivals)
    requires Stream(s, arrivals, false).status.Completed? && Stream(p, arrivals, false).status.Completed?
    requires !Revisits(Cells(s, arrivals)) && !Revisits(Cells(p, arrivals))
    ensures SameGrid(ResolvedRows(Sent(Stream(s, arrivals, false).events), Entries(arrivals)),
                     Sent(Stream(p, arrivals, false).events))
  {
    WholeRun(s, arrivals);
    WholeRun(p, arrivals);
    StreamCellsMatch(s, p, arrivals);
    hide Stream, FlatMap, Cells, Latest, Entries, TokensAgree, CellsMatch, Shown, Ascending, AllTidy, ResolvedRows;
    var d, q := Sent(Stream(s, arrivals, false).events), Sent(Stream(p, arrivals, false).events);
    var table := Entries(arrivals);
    forall row: nat, col: nat
      ensures Shown(ResolvedRows(d, table), row, col) == Shown(q, row, col)
    {
      ResolvedShown(d, table, row, col);
      LatestMatch(Cells(s, arrivals), Cells(p, arrivals), table, row, col);
    }
  }

  /** Resolving the rows of a completed dictionary stream with the table its
      chunks define gives the rows and the gaps of a completed plain stream. */
  lemma {:induction false} DictionaryRefinesPlain(s: Setup, p: Setup, arrivals: seq<Arrival>)
    requires s.header == p.header && s.useTable && !p.useTable && TokensAgree(arrivals)
    requires Stream(s, arrivals, false).status.Completed? && Stream(p, arrivals, false).status.Completed?
    requires !Revisits(Cells(p, arrivals))
    ensures var d, q := Stream(s, arrivals, false).events, Stream(p, arrivals, false).events;
            && ResolvedRows(Sent(d), Dictionary(d)) == Sent(q)
            && Itemize(ResolvedRows(Sent(d), Dictionary(d)), s.header) == Items(q)
  {
    hide Stream, FlatMap, Cells, Latest, Entries, TokensAgree, CellsMatch, Shown, Ascending, AllTidy, ResolvedRows,
      Revisits, SameGrid, Itemize;
    var d, q := Sent(Stream(s, arrivals, false).events), Sent(Stream(p, arrivals, false).events);
    StreamCellsMatch(s, p, arrivals);
    MatchRevisits(Cells(s, arrivals), Cells(p, arrivals), Entries(arrivals));
    WholeRun(s, arrivals);
    WholeRun(p, arrivals);
    ClientResolves(s, arrivals);
    ResolvedGrid(s, p, arrivals);
    ResolvedTidy(d, Entries(arrivals));
    RowsAreDetermined(ResolvedRows(d, Entries(arrivals)), q);
    GapsAreExact(p, arrivals, false);
  }
}
