/** What a client is promised of a whole stream, told from the sheet's cells
    alone: for every batch cap, carrier, header row, linger outcome, sort order
    of equal rows, and with or without a table. */
module WholeRuns {
  import opened Sequences
  import opened Contract
  import opened BatchingFacts
  import opened BatcherInvariant
  import opened Walking
  import opened StreamTheorems
  import opened Revisiting
  import opened RowIndices

  /** The rows of a completed stream are strictly ascending, as the contract
      promises, exactly when the sheet never revisits a row. */
  lemma {:induction false} AscendsExactly(s: Setup, arrivals: seq<Arrival>)
    requires Stream(s, arrivals, false).status.Completed?
    ensures Ascending(Sent(Stream(s, arrivals, false).events)) <==> !Revisits(Cells(s, arrivals))
  {
    CompletedRan(s, arrivals);
    FinishInv(s.cfg, s.header, Walked(s, arrivals));
    RunClean(s, arrivals);
    RunTracked(s, arrivals);
    hide NeverBlind, Ascending, Revisits, Walked, Wire, Tracked, OnTrail, FlatMap;
  }

  /** A completed stream of a sheet that revisits no row shows a client exactly
      the sheet: at every position, the last kept cell that arrived for it. */
  lemma {:induction false} WholeRun(s: Setup, arrivals: seq<Arrival>)
    requires Stream(s, arrivals, false).status.Completed? && !Revisits(Cells(s, arrivals))
    ensures var sent := Sent(Stream(s, arrivals, false).events);
            && Ascending(sent) && AllTidy(sent)
            && forall row: nat, col: nat :: Shown(sent, row, col) == Latest(Cells(s, arrivals), row, col)
  {
    CompletedRan(s, arrivals);
    hide NeverBlind, Ascending, Revisits, Walked, AllTidy, Tracked, OnTrail, FlatMap;
    RunTracked(s, arrivals);
    CleanRun(s, arrivals);
  }

  /** Cells that arrive row by row, the rows in any order, are a sheet that
      revisits no row. */
  lemma {:induction false} GroupedRun(s: Setup, arrivals: seq<Arrival>)
    requires Stream(s, arrivals, false).status.Completed? && RowGrouped(Cells(s, arrivals))
    ensures var sent := Sent(Stream(s, arrivals, false).events);
            && Ascending(sent) && AllTidy(sent)
            && forall row: nat, col: nat :: Shown(sent, row, col) == Latest(Cells(s, arrivals), row, col)
  {
    hide Stream, RowGrouped, Followed;
    GroupedNeverRevisits(Cells(s, arrivals));
    WholeRun(s, arrivals);
  }

  /** What a stream cut short had sent: when a cell comes too late, or reading
      fails, the rows on the wire are the sheet so far down to the last row
      sent, whole, and nothing past it. */
  lemma {:induction false} CutShort(s: Setup, arrivals: seq<Arrival>, end: Walk)
    requires Walked(s, arrivals).status.Running? && !Revisits(Cells(s, arrivals))
    requires || end == Fail(Walked(s, arrivals))
             || exists a :: TooLate(s, arrivals, a) && end == Walked(s, arrivals + [a])
    ensures var sent := Sent(end.events);
            && Ascending(sent) && AllTidy(sent)
            && forall row: nat, col: nat ::
                 Shown(sent, row, col) ==
                 if sent != [] && row <= sent[|sent| - 1].index then Latest(Cells(s, arrivals), row, col)
                 else None
  {
    EndSaysNothing(s, arrivals, end);
    RunInv(s, arrivals);
    RunClean(s, arrivals);
    RunTracked(s, arrivals);
    hide Fail, TooLate, Walked, FlatMap, Shown, Latest, Cells, Revisits, NeverBlind, Tracked, OnTrail;
    forall row: nat, col: nat
      ensures var sent := Sent(end.events);
              Shown(sent, row, col) ==
              if sent != [] && row <= sent[|sent| - 1].index then Latest(Cells(s, arrivals), row, col)
              else None
    {
      SentSoFar(s, arrivals, row, col);
    }
  }

  lemma CompletedInOrder(s: Setup, arrivals: seq<Arrival>)
    requires Stream(s, arrivals, false).status.Completed?
    ensures var sent := Sent(Stream(s, arrivals, false).events); NonDescending(sent) && AtLeast(sent, s.header)
  {
    CompletedRan(s, arrivals);
    FinishInv(s.cfg, s.header, Walked(s, arrivals));
    hide Walked, FlatMap, NonDescending, AtLeast, Finish;
  }

  /** No gap of a completed stream covers the row of a kept cell, wherever in
      the input that cell arrived, and revisited or not. */
  lemma {:induction false} GapsAreEmpty(s: Setup, arrivals: seq<Arrival>, g: nat, k: nat)
    requires Stream(s, arrivals, false).status.Completed?
    requires var items := Items(Stream(s, arrivals, false).events); g < |items| && items[g].GapItem?
    requires k < |Cells(s, arrivals)|
    ensures !Covers(Items(Stream(s, arrivals, false).events)[g], Cells(s, arrivals)[k].row)
  {
    var sent := Sent(Stream(s, arrivals, false).events);
    var row := Cells(s, arrivals)[k].row;
    CompletedInOrder(s, arrivals);
    GapsAreExact(s, arrivals, false);
    RowsSent(s, arrivals);
    assert HasRow(Cells(s, arrivals), row);
    hide Stream, FlatMap, Itemize, Covers, Cells, GapsExact, NonDescending;
    assert HasIndex(sent, row);
    var j :| 0 <= j < |sent| && sent[j].index == row;
    GapsCoverNothingSent(sent, s.header, g, j);
  }

  /** Every row sent in a completed stream of a sheet that revisits no row ends
      at its own last populated cell: a kept cell of that row, with none
      further right. */
  lemma {:induction false} RowsEndAtTheirLastCell(s: Setup, arrivals: seq<Arrival>, j: nat)
    requires Stream(s, arrivals, false).status.Completed? && !Revisits(Cells(s, arrivals))
    requires j < |Sent(Stream(s, arrivals, false).events)|
    ensures var row := Sent(Stream(s, arrivals, false).events)[j];
            && row.values != []
            && Latest(Cells(s, arrivals), row.index, |row.values| - 1) == Some(row.values[|row.values| - 1])
            && forall col: nat :: col >= |row.values| ==> Latest(Cells(s, arrivals), row.index, col) == None
  {
    WholeRun(s, arrivals);
    hide Stream, FlatMap, Latest, Shown, Revisits, Cells;
    var sent := Sent(Stream(s, arrivals, false).events);
    var row := sent[j];
    forall col: nat
      ensures Latest(Cells(s, arrivals), row.index, col) == CellAt(row.values, col)
    {
      ShownOnly(sent, j, col);
      assert Shown(sent, row.index, col) == Latest(Cells(s, arrivals), row.index, col);
    }
  }
}
