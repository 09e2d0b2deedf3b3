/** What a client of a completed stream holds at each position, in terms of
    what the reader yielded (`src/service.rs`). */
module ArrivedSheets {
  import opened Sequences
  import opened Contract
  import opened Walking
  import opened StreamTheorems
  import opened Revisiting
  import opened DictionaryMode
  import opened TwoPaths

  /** An arrival that counts at a position: it is there, not above the header
      row, and has a formula or a value. */
  predicate Counts(header: Option<nat>, a: Arrival, row: nat, col: nat) {
    && a.row == row && a.col == col
    && (header.Some? ==> header.value <= row)
    && (a.formula.Some? || a.raw.Borrowed? || a.raw.value != Empty)
  }

  /** What an arrival is to a client that has resolved its ids. */
  function AsRead(a: Arrival): CellData {
    CellData(match a.raw case Plain(value) => value case Borrowed(_, text) => Shared(text), a.formula, a.styleId)
  }

  /** What stands at a position after `arrivals`: nothing when none counts
      there, and otherwise the last that does. */
  ghost predicate Stands(header: Option<nat>, arrivals: seq<Arrival>, row: nat, col: nat, data: Option<CellData>) {
    match data
    case None => forall k :: 0 <= k < |arrivals| ==> !Counts(header, arrivals[k], row, col)
    case Some(d) =>
      exists k :: 0 <= k < |arrivals| && LastToCount(header, arrivals, row, col, k) && d == AsRead(arrivals[k])
  }

  ghost predicate LastToCount(header: Option<nat>, arrivals: seq<Arrival>, row: nat, col: nat, k: nat)
    requires k < |arrivals|
  {
    && Counts(header, arrivals[k], row, col)
    && forall j :: k < j < |arrivals| ==> !Counts(header, arrivals[j], row, col)
  }

  lemma StandsMore(header: Option<nat>, before: seq<Arrival>, a: Arrival, row: nat, col: nat, data: Option<CellData>)
    requires Stands(header, before, row, col, data)
    ensures Stands(header, before + [a], row, col, if Counts(header, a, row, col) then Some(AsRead(a)) else data)
  {
    hide Counts, AsRead;
    var all := before + [a];
    if Counts(header, a, row, col) {
      assert LastToCount(header, all, row, col, |before|);
    } else if data.Some? {
      var k :| 0 <= k < |before| && LastToCount(header, before, row, col, k) && data.value == AsRead(before[k]);
      assert LastToCount(header, all, row, col, k) && all[k] == before[k];
    }
  }

  lemma PlainStep(s: Setup, before: seq<Arrival>, a: Arrival)
    ensures var cell := Cell(a.row, a.col, AsRead(a));
            PlainCells(s, before + [a]) == PlainCells(s, before) + if Kept(s.header, cell) then [cell] else []
  {
    ConvertedLast(false, before, a);
    NoTable(before);
    var cells := Converted(false, before + [a]);
    assert cells[..|cells| - 1] == Converted(false, before);
  }

  lemma {:induction false} PlainCellsStand(s: Setup, arrivals: seq<Arrival>, row: nat, col: nat)
    ensures Stands(s.header, arrivals, row, col, Latest(PlainCells(s, arrivals), row, col))
  {
    if arrivals == [] {
    } else {
      hide Stands, PlainCells, Latest;
      var before, a := arrivals[..|arrivals| - 1], arrivals[|arrivals| - 1];
      assert before + [a] == arrivals;
      PlainCellsStand(s, before, row, col);
      PlainStep(s, before, a);
      StandsMore(s.header, before, a, row, col, Latest(PlainCells(s, before), row, col));
      LatestAppend(PlainCells(s, before), Cell(a.row, a.col, AsRead(a)), row, col);
      assert PlainCells(s, before) + [] == PlainCells(s, before);
    }
  }

  /** A client of a completed stream of cells that revisit no row holds at each
      position, its ids resolved, the last arrival that counts there, with its
      formula and its style, and nothing elsewhere. */
  lemma {:induction false} ClientHoldsTheSheet(s: Setup, arrivals: seq<Arrival>, row: nat, col: nat)
    requires Stream(s, arrivals, false).status.Completed? && !Revisits(PlainCells(s, arrivals))
    requires s.useTable ==> TokensAgree(arrivals)
    ensures Stands(s.header, arrivals, row, col,
                   Shown(ClientRows(Stream(s, arrivals, false).events), row, col))
  {
    hide Stream, Revisits, PlainCells, TokensAgree, ClientRows, Stands, Shown, Latest, Ascending, AllTidy;
    ClientShows(s, arrivals);
    PlainCellsStand(s, arrivals, row, col);
  }
}
