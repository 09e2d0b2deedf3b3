/** The two ways to stream a sheet (`src/service.rs`, `emit_incremental` and
    `emit_range`): when they send the same rows and gaps. */
module TwoPaths {
  import opened Sequences
  import opened Contract
  import opened StringTables
  import opened Batching
  import opened BatchingFacts
  import opened Walking
  import opened StreamTheorems
  import opened Revisiting
  import opened WholeRuns
  import opened DictionaryMode
  import opened DictionaryRefines
  import opened Ranges
  import opened RangeTheorems

  // ---- the range of the same cells ----

  /** A range is made of the cells that hold a value: a formula alone is not in
      it. */
  function Valued(cells: seq<Cell>): seq<Cell> {
    if cells == [] then []
    else
      var last := cells[|cells| - 1];
      Valued(cells[..|cells| - 1]) + if last.data.value.Empty? then [] else [last]
  }

  lemma ValuedMore(before: seq<Cell>, last: Cell)
    ensures Valued(before + [last]) == Valued(before) + if last.data.value.Empty? then [] else [last]
  {
    assert (before + [last])[..|before|] == before;
  }

  lemma {:induction false} ValuedAre(header: Option<nat>, cells: seq<Cell>)
    ensures HaveValues(Valued(cells))
    ensures forall k :: 0 <= k < |Valued(cells)| ==> Valued(cells)[k] in cells
    ensures forall k :: 0 <= k < |cells| && !cells[k].data.value.Empty? ==> cells[k] in Valued(cells)
    ensures FromHeader(header, cells) ==> FromHeader(header, Valued(cells))
  {
    if cells == [] {
    } else {
      hide Valued;
      var before, last := cells[..|cells| - 1], cells[|cells| - 1];
      assert before + [last] == cells;
      ValuedMore(before, last);
      ValuedAre(header, before);
    }
  }

  /** The sheet's cells with shared strings in place. */
  function PlainCells(s: Setup, arrivals: seq<Arrival>): seq<Cell> {
    Cells(s.(useTable := false), arrivals)
  }

  lemma KeptCellsAtLeast(header: Option<nat>, cells: seq<Cell>)
    ensures FromHeader(header, KeptCells(header, cells))
  {
  }

  /** The range that the sheet's kept cells make. */
  function SheetRange(s: Setup, arrivals: seq<Arrival>): Range {
    KeptCellsAtLeast(s.header, Converted(false, arrivals));
    ValuedAre(s.header, PlainCells(s, arrivals));
    FromSparse(s.header, Valued(PlainCells(s, arrivals)))
  }

  // ---- when they agree ----

  /** The last word at each position that ever holds a value is a value. */
  ghost predicate ValuesLast(cells: seq<Cell>) {
    forall k :: 0 <= k < |cells| && !cells[k].data.value.Empty? ==>
                  HasValue(Latest(cells, cells[k].row, cells[k].col))
  }

  /** Each row that has a cell has one with a value. */
  ghost predicate RowsHaveValues(cells: seq<Cell>) {
    forall k :: 0 <= k < |cells| ==> RowHasValue(cells, cells[k].row)
  }

  ghost predicate RowHasValue(cells: seq<Cell>, row: nat) {
    exists k :: 0 <= k < |cells| && cells[k].row == row && !cells[k].data.value.Empty?
  }

  predicate HasValue(data: Option<CellData>) {
    data.Some? && !data.value.value.Empty?
  }

  /** What is left of a cell without its formula and its style. */
  function Plained(data: Option<CellData>): Option<CellData> {
    if HasValue(data) then Some(PlainData(data.value)) else None
  }

  lemma {:induction false} LastValue(cells: seq<Cell>, row: nat, col: nat)
    requires HasValue(Latest(cells, row, col))
    ensures Latest(Valued(cells), row, col) == Latest(cells, row, col)
  {
    var n := |cells| - 1;
    var last := cells[n];
    var before := Valued(cells[..n]);
    if !last.data.value.Empty? {
      LatestAppend(before, last, row, col);
    } else {
      assert before + [] == before;
    }
    if !(last.row == row && last.col == col) {
      LastValue(cells[..n], row, col);
    }
  }

  lemma ValueArrived(cells: seq<Cell>, row: nat, col: nat)
    requires Latest(Valued(cells), row, col).Some?
    ensures exists k :: 0 <= k < |cells| && cells[k].row == row && cells[k].col == col && !cells[k].data.value.Empty?
  {
    ValuedAre(None, cells);
    var k := LatestSome(Valued(cells), row, col);
    var j :| 0 <= j < |cells| && cells[j] == Valued(cells)[k];
  }

  /** With the last word to values, leaving formulas alone out changes no value. */
  lemma LatestValued(cells: seq<Cell>, row: nat, col: nat)
    requires ValuesLast(cells)
    ensures Plained(Latest(cells, row, col)) == MappedOption(PlainData, Latest(Valued(cells), row, col))
  {
    if HasValue(Latest(cells, row, col)) {
      LastValue(cells, row, col);
    } else if Latest(Valued(cells), row, col).Some? {
      ValueArrived(cells, row, col);
    }
  }

  // ---- rows without formulas, styles and trailing blanks ----

  /** A row as a range would hold it, up to the blanks that end it. */
  function BareRow(row: Row): Row {
    TrimmedRow(Row(row.index, seq(|row.values|, c requires 0 <= c < |row.values| => PlainData(row.values[c]))))
  }

  lemma BareShows(row: Row, col: nat)
    ensures CellAt(BareRow(row).values, col) == Plained(CellAt(row.values, col))
  {
    var values := seq(|row.values|, c requires 0 <= c < |row.values| => PlainData(row.values[c]));
    TrimmedShows(values, col);
  }

  lemma BareIsTidy(row: Row, col: nat)
    requires HasValue(CellAt(row.values, col))
    ensures Tidy(BareRow(row).values)
  {
    var values := seq(|row.values|, c requires 0 <= c < |row.values| => PlainData(row.values[c]));
    TrimmedIsTidy(values, col);
  }

  lemma AscendingDistinct(rows: seq<Row>)
    requires Ascending(rows)
    ensures Distinct(rows)
  {
  }

  lemma BareRowsShow(rows: seq<Row>, row: nat, col: nat)
    requires Ascending(rows)
    ensures Shown(Mapped(BareRow, rows), row, col) == Plained(Shown(rows, row, col))
  {
    hide Shown, CellAt, BareRow;
    BareIndices(rows);
    AscendingDistinct(rows);
    AscendingDistinct(Mapped(BareRow, rows));
    if k :| 0 <= k < |rows| && rows[k].index == row {
      BareShows(rows[k], col);
      ShownOnly(rows, k, col);
      ShownOnly(Mapped(BareRow, rows), k, col);
    } else {
      ShownAbsent(rows, row, col);
      ShownAbsent(Mapped(BareRow, rows), row, col);
    }
  }

  lemma BareIndices(rows: seq<Row>)
    ensures forall k :: 0 <= k < |rows| ==> Mapped(BareRow, rows)[k].index == rows[k].index
    ensures Ascending(rows) ==> Ascending(Mapped(BareRow, rows))
  {
  }

  /** Rows that show `cells`, whose rows all have values. */
  lemma BareRowsTidy(rows: seq<Row>, cells: seq<Cell>)
    requires AllTidy(rows) && Ascending(rows) && ValuesLast(cells) && RowsHaveValues(cells)
    requires forall row: nat, col: nat :: Shown(rows, row, col) == Latest(cells, row, col)
    ensures AllTidy(Mapped(BareRow, rows))
  {
    hide Shown, Latest, BareRow, Ascending, ValuesLast, RowsHaveValues;
    AscendingDistinct(rows);
    forall k | 0 <= k < |rows|
      ensures Tidy(Mapped(BareRow, rows)[k].values)
    {
      assert Tidy(rows[k].values);
      ShownOnly(rows, k, |rows[k].values| - 1);
      assert Latest(cells, rows[k].index, |rows[k].values| - 1).Some?;
      var col := ValueInRow(cells, rows[k].index, |rows[k].values| - 1);
      ShownOnly(rows, k, col);
      assert Shown(rows, rows[k].index, col) == Latest(cells, rows[k].index, col);
      BareIsTidy(rows[k], col);
    }
  }

  lemma ValueInRow(cells: seq<Cell>, row: nat, populated: nat) returns (col: nat)
    requires ValuesLast(cells) && RowsHaveValues(cells) && Latest(cells, row, populated).Some?
    ensures HasValue(Latest(cells, row, col))
  {
    var k := LatestSome(cells, row, populated);
    assert RowHasValue(cells, cells[k].row);
    var j :| 0 <= j < |cells| && cells[j].row == row && !cells[j].data.value.Empty?;
    col := cells[j].col;
  }

  // ---- what the client has ----

  /** The rows a client has once it has resolved their ids. */
  function ClientRows(events: seq<Event>): seq<Row> {
    ResolvedRows(Sent(events), Dictionary(events))
  }

  lemma NothingToResolve(rows: seq<Row>)
    ensures ResolvedRows(rows, []) == rows
  {
    forall k | 0 <= k < |rows|
      ensures ResolvedRow(rows[k], []) == rows[k]
    {
    }
  }

  ghost predicate ShowsCells(rows: seq<Row>, cells: seq<Cell>) {
    && Ascending(rows) && AllTidy(rows)
    && forall row: nat, col: nat :: Shown(rows, row, col) == Latest(cells, row, col)
  }

  lemma PlainClientShows(s: Setup, arrivals: seq<Arrival>)
    requires !s.useTable && Stream(s, arrivals, false).status.Completed? && !Revisits(Cells(s, arrivals))
    ensures ShowsCells(ClientRows(Stream(s, arrivals, false).events), PlainCells(s, arrivals))
  {
    hide Stream, Revisits, FlatMap, Latest, Shown, Ascending, AllTidy, ResolvedRows, Cells;
    assert s.(useTable := false) == s;
    WholeRun(s, arrivals);
    CompletedEntries(s, arrivals);
    NothingToResolve(Sent(Stream(s, arrivals, false).events));
  }

  lemma TableClientShows(s: Setup, arrivals: seq<Arrival>)
    requires s.useTable && Stream(s, arrivals, false).status.Completed? && !Revisits(Cells(s, arrivals))
    requires TokensAgree(arrivals)
    ensures ShowsCells(ClientRows(Stream(s, arrivals, false).events), PlainCells(s, arrivals))
  {
    hide Stream, Revisits, FlatMap, Latest, Shown, Ascending, AllTidy, ResolvedRows, Cells, Entries, TokensAgree,
      CellsMatch;
    var sent, table := Sent(Stream(s, arrivals, false).events), Entries(arrivals);
    WholeRun(s, arrivals);
    StreamCellsMatch(s, s.(useTable := false), arrivals);
    ClientResolves(s, arrivals);
    ResolvedTidy(sent, table);
    forall row: nat, col: nat
      ensures Shown(ResolvedRows(sent, table), row, col) == Latest(PlainCells(s, arrivals), row, col)
    {
      ResolvedShown(sent, table, row, col);
      LatestMatch(Cells(s, arrivals), PlainCells(s, arrivals), table, row, col);
    }
  }

  /** What a client has resolved shows the sheet, in dictionary mode or not. */
  lemma ClientShows(s: Setup, arrivals: seq<Arrival>)
    requires Stream(s, arrivals, false).status.Completed? && !Revisits(PlainCells(s, arrivals))
    requires s.useTable ==> TokensAgree(arrivals)
    ensures ShowsCells(ClientRows(Stream(s, arrivals, false).events), PlainCells(s, arrivals))
  {
    hide Stream, Revisits, Cells, TokensAgree, ShowsCells, ClientRows;
    if s.useTable {
      StreamCellsMatch(s, s.(useTable := false), arrivals);
      MatchRevisits(Cells(s, arrivals), PlainCells(s, arrivals), Entries(arrivals));
      TableClientShows(s, arrivals);
    } else {
      assert s.(useTable := false) == s;
      PlainClientShows(s, arrivals);
    }
  }

  // ---- the items of both ----

  /** What a row of the stream is to a client that keeps no formula or style,
      once resolved with `table`. */
  function Bared(table: seq<Bytes>): Row -> Row {
    row => BareRow(ResolvedRow(row, table))
  }

  lemma BaredRows(rows: seq<Row>, table: seq<Bytes>)
    ensures KeepsIndex(Bared(table))
    ensures Mapped(Bared(table), rows) == Mapped(BareRow, ResolvedRows(rows, table))
  {
    hide ResolvedRow, BareRow;
    assert forall row :: Bared(table)(row).index == row.index by {
      forall row: Row
        ensures Bared(table)(row).index == row.index
      {
        BaredIndex(row, table);
      }
    }
  }

  lemma BaredIndex(row: Row, table: seq<Bytes>)
    ensures BareRow(ResolvedRow(row, table)).index == row.index
  {
  }

  /** The rows among `items`. */
  function ItemRows(items: seq<Item>): seq<Row> {
    if items == [] then []
    else
      var last := items[|items| - 1];
      ItemRows(items[..|items| - 1]) + if last.RowItem? then [last.row] else []
  }

  lemma {:induction false} ItemRowsAppend(a: seq<Item>, b: seq<Item>)
    ensures ItemRows(a + b) == ItemRows(a) + ItemRows(b)
  {
    if b == [] {
      assert a + b == a;
    } else {
      assert (a + b)[..|a + b| - 1] == a + b[..|b| - 1];
      ItemRowsAppend(a, b[..|b| - 1]);
    }
  }

  lemma {:induction false} ItemizedRows(rows: seq<Row>, start: Option<nat>)
    ensures ItemRows(Itemize(rows, start)) == rows
  {
    if rows == [] {
    } else {
      hide ItemRows, Itemize, GapBefore, NextAfter;
      var prefix, last := rows[..|rows| - 1], rows[|rows| - 1];
      var gap := GapBefore(last.index, NextAfter(prefix, start));
      assert prefix + [last] == rows;
      ItemizeMore(prefix, last, start);
      ItemizedRows(prefix, start);
      ItemRowsAppend(Itemize(prefix, start), gap);
      ItemRowsAppend(Itemize(prefix, start) + gap, [RowItem(last)]);
      GapHasNoRow(last.index, NextAfter(prefix, start));
      RowItemRow(last);
      assert prefix + [] + [last] == rows;
    }
  }

  lemma GapHasNoRow(row: nat, next: Option<nat>)
    ensures ItemRows(GapBefore(row, next)) == []
  {
  }

  lemma RowItemRow(row: Row)
    ensures ItemRows([RowItem(row)]) == [row]
  {
    assert [RowItem(row)][..0] == [];
  }

  /** The stream's items and a range's, row by row. */
  ghost predicate Agree(s: Setup, arrivals: seq<Arrival>, cfg: Config, table: Option<Table>, maxDenseCells: nat)
    requires ValidTable(table)
  {
    var events := Stream(s, arrivals, false).events;
    MappedItems(TrimmedRow, Items(RangeStream(cfg, table, SheetRange(s, arrivals), maxDenseCells))) ==
    MappedItems(Bared(Dictionary(events)), Items(events))
  }

  lemma StreamItems(s: Setup, arrivals: seq<Arrival>)
    ensures var events := Stream(s, arrivals, false).events;
            MappedItems(Bared(Dictionary(events)), Items(events)) ==
            Itemize(Mapped(BareRow, ClientRows(events)), s.header)
  {
    hide Stream, MappedItems, Mapped, Itemize, ResolvedRows, FlatMap, Bared, KeepsIndex;
    var events := Stream(s, arrivals, false).events;
    GapsAreExact(s, arrivals, false);
    BaredRows(Sent(events), Dictionary(events));
    MappedItemize(Bared(Dictionary(events)), Sent(events), s.header);
  }

  /** The rows of the range that the cells with values make, trimmed. */
  function RangeRowsOf(header: Option<nat>, cells: seq<Cell>): seq<Row>
    requires FromHeader(header, cells)
  {
    match FromSparse(header, cells)
    case NoRange => []
    case Range(startRow, startCol, width, rows) => Mapped(TrimmedRow, RangeRows(startRow, startCol, rows))
  }

  lemma RangeItems(header: Option<nat>, cells: seq<Cell>, cfg: Config, table: Option<Table>, max: nat)
    requires HaveValues(cells) && FromHeader(header, cells) && ValidTable(table)
    requires RangeWithin(FromSparse(header, cells), max)
    ensures MappedItems(TrimmedRow, Items(RangeStream(cfg, table, FromSparse(header, cells), max))) ==
            Itemize(RangeRowsOf(header, cells), header)
  {
    var range := FromSparse(header, cells);
    if cells == [] {
      SaysOne(Started);
    } else {
      var rows := RangeRows(range.startRow, range.startCol, range.rows);
      RangeStreamSays(cfg, table, range, max);
      if header.None? {
        RangeFirstRow(cells);
        LeadingGap(rows, range.startRow);
      }
      hide RangeStream, HaveValues, Itemize, RangeRows, FlatMap, MappedItems;
      MappedItemize(TrimmedRow, rows, header);
    }
  }

  /** Without a header row, a range starts at its first populated row, so
      opening the stream there announces no gap that trimming would not. */
  lemma LeadingGap(rows: seq<Row>, first: nat)
    requires rows != [] && rows[0].index == first
    ensures Itemize(rows, Some(first)) == Itemize(rows, None)
  {
    var n := |rows| - 1;
    if n > 0 {
      LeadingGap(rows[..n], first);
    } else {
      assert rows[..0] == [];
    }
  }

  lemma RangeFirstRow(cells: seq<Cell>)
    requires cells != [] && HaveValues(cells)
    ensures var range := FromSparse(None, cells);
            && var rows := RangeRows(range.startRow, range.startCol, range.rows);
            rows != [] && rows[0].index == range.startRow
  {
    var range := FromSparse(None, cells);
    var first := FirstRow(cells);
    var k :| 0 <= k < |cells| && cells[k].row == first;
    KeptIsLatest(cells, k);
    SparseShows(None, cells, first, cells[k].col);
    RangeRowsAscend(range.startRow, range.startCol, range.rows);
    var rows := RangeRows(range.startRow, range.startCol, range.rows);
    var j := ShownSome(rows, first, cells[k].col);
  }

  lemma RangeShowsCells(header: Option<nat>, cells: seq<Cell>)
    requires HaveValues(cells) && FromHeader(header, cells)
    ensures var rows := RangeRowsOf(header, cells);
            && AllTidy(rows) && Ascending(rows)
            && forall row: nat, col: nat :: Shown(rows, row, col) == MappedOption(PlainData, Latest(cells, row, col))
  {
    if cells != [] {
      RangeRowsPlain(header, cells);
    }
  }

  // ---- exactly ----

  lemma SameRows(header: Option<nat>, rows: seq<Row>, cells: seq<Cell>)
    requires ShowsCells(rows, cells) && ValuesLast(cells) && RowsHaveValues(cells)
    requires FromHeader(header, Valued(cells))
    ensures Mapped(BareRow, rows) == RangeRowsOf(header, Valued(cells))
  {
    ValuedAre(header, cells);
    RangeShowsCells(header, Valued(cells));
    BareRowsTidy(rows, cells);
    BareIndices(rows);
    hide Shown, Latest, AllTidy, Ascending, ValuesLast, RowsHaveValues, HaveValues, FromHeader, RangeRowsOf, Mapped;
    var bare, ranged := Mapped(BareRow, rows), RangeRowsOf(header, Valued(cells));
    forall row: nat, col: nat
      ensures Shown(bare, row, col) == Shown(ranged, row, col)
    {
      BareRowsShow(rows, row, col);
      LatestValued(cells, row, col);
    }
    RowsAreDetermined(bare, ranged);
  }

  /** Where the rows are the same, so is what has the last word. */
  lemma ValuesWereLast(header: Option<nat>, rows: seq<Row>, cells: seq<Cell>)
    requires ShowsCells(rows, cells) && FromHeader(header, Valued(cells))
    requires Mapped(BareRow, rows) == RangeRowsOf(header, Valued(cells))
    ensures ValuesLast(cells)
  {
    ValuedAre(header, cells);
    RangeShowsCells(header, Valued(cells));
    hide Shown, Latest, AllTidy, Ascending, HaveValues, FromHeader, RangeRowsOf, Mapped;
    forall k | 0 <= k < |cells| && !cells[k].data.value.Empty?
      ensures HasValue(Latest(cells, cells[k].row, cells[k].col))
    {
      var row, col := cells[k].row, cells[k].col;
      var j :| 0 <= j < |Valued(cells)| && Valued(cells)[j] == cells[k];
      KeptIsLatest(Valued(cells), j);
      BareRowsShow(rows, row, col);
      assert Shown(rows, row, col) == Latest(cells, row, col);
    }
  }

  lemma RowsHadValues(header: Option<nat>, rows: seq<Row>, cells: seq<Cell>)
    requires ShowsCells(rows, cells) && FromHeader(header, Valued(cells))
    requires Mapped(BareRow, rows) == RangeRowsOf(header, Valued(cells))
    ensures RowsHaveValues(cells)
  {
    ValuedAre(header, cells);
    RangeShowsCells(header, Valued(cells));
    BareIndices(rows);
    hide Shown, Latest, Ascending, HaveValues, FromHeader, RangeRowsOf, Mapped, AllTidy, Tidy, CellAt;
    forall k | 0 <= k < |cells|
      ensures RowHasValue(cells, cells[k].row)
    {
      KeptIsLatest(cells, k);
      assert Shown(rows, cells[k].row, cells[k].col) == Latest(cells, cells[k].row, cells[k].col);
      var j := ShownSome(rows, cells[k].row, cells[k].col);
      RowHadValue(RangeRowsOf(header, Valued(cells)), cells, j);
    }
  }

  lemma RowHadValue(ranged: seq<Row>, cells: seq<Cell>, j: nat)
    requires Ascending(ranged) && AllTidy(ranged) && j < |ranged|
    requires forall row: nat, col: nat ::
               Shown(ranged, row, col) == MappedOption(PlainData, Latest(Valued(cells), row, col))
    ensures RowHasValue(cells, ranged[j].index)
  {
    hide Shown, Latest, Ascending, Valued;
    assert Tidy(ranged[j].values);
    var row, col := ranged[j].index, |ranged[j].values| - 1;
    AscendingDistinct(ranged);
    ShownOnly(ranged, j, col);
    assert Latest(Valued(cells), row, col).Some?;
    ValueArrived(cells, row, col);
  }

  /** Two paths, one contract. Of cells that revisit no row, a completed
      incremental stream, its ids resolved, and the buffered stream of the
      range the same cells make send the same rows and gaps, up to formulas,
      styles and the blanks that end a row, exactly when no formula alone has
      the last word over a value and no row holds formulas alone. */
  lemma {:induction false} TwoPathsAgree(s: Setup, arrivals: seq<Arrival>, cfg: Config, table: Option<Table>,
                                         maxDenseCells: nat)
    requires Stream(s, arrivals, false).status.Completed? && !Revisits(PlainCells(s, arrivals))
    requires s.useTable ==> TokensAgree(arrivals)
    requires ValidTable(table) && RangeWithin(SheetRange(s, arrivals), maxDenseCells)
    ensures Agree(s, arrivals, cfg, table, maxDenseCells) <==>
            ValuesLast(PlainCells(s, arrivals)) && RowsHaveValues(PlainCells(s, arrivals))
  {
    hide Stream, Revisits, Cells, TokensAgree, ShowsCells, ClientRows, RangeStream, RangeRowsOf, FromSparse, ValuesLast,
      RowsHaveValues, HaveValues, MappedItems, Mapped, Itemize, FromHeader, Bared, FlatMap, Valued, RangeWithin;
    var cells, events := PlainCells(s, arrivals), Stream(s, arrivals, false).events;
    KeptFromHeader(s, arrivals);
    ClientShows(s, arrivals);
    StreamItems(s, arrivals);
    RangeItems(s.header, Valued(cells), cfg, table, maxDenseCells);
    ItemizedRows(Mapped(BareRow, ClientRows(events)), s.header);
    ItemizedRows(RangeRowsOf(s.header, Valued(cells)), s.header);
    if Agree(s, arrivals, cfg, table, maxDenseCells) {
      ValuesWereLast(s.header, ClientRows(events), cells);
      RowsHadValues(s.header, ClientRows(events), cells);
    } else if ValuesLast(cells) && RowsHaveValues(cells) {
      SameRows(s.header, ClientRows(events), cells);
      assert false;
    }
  }

  /** One cell with a formula and no value: the incremental stream has a row,
      and the range has none. */
  function FormulaAlone(row: RowIndex, col: nat, formula: Bytes): seq<Arrival> {
    [Arrival(row, col, Plain(Empty), Some(formula), None)]
  }

  lemma {:induction false} FormulaAloneDiffers(s: Setup, row: RowIndex, col: nat, formula: Bytes, cfg: Config,
                                               table: Option<Table>, maxDenseCells: nat)
    requires ValidTable(table) && (s.header.Some? ==> s.header.value <= row)
    ensures Stream(s, FormulaAlone(row, col, formula), false).status.Completed?
    ensures SheetRange(s, FormulaAlone(row, col, formula)).NoRange?
    ensures !Agree(s, FormulaAlone(row, col, formula), cfg, table, maxDenseCells)
  {
    hide Agree, Revisits, Stream, SheetRange, PlainCells, TooLate, ValuesLast, TokensAgree;
    var arrivals := FormulaAlone(row, col, formula);
    OneCellCompletes(s, arrivals);
    FormulaAloneIs(s, row, col, formula);
    var cell := Cell(row, col, CellData(Empty, Some(formula), None));
    OneCellNeverRevisits(cell);
    assert !RowHasValue([cell], [cell][0].row);
    TwoPathsAgree(s, arrivals, cfg, table, maxDenseCells);
  }

  lemma OneCellCompletes(s: Setup, arrivals: seq<Arrival>)
    requires |arrivals| == 1
    ensures Stream(s, arrivals, false).status.Completed? && (arrivals[0].raw.Plain? ==> TokensAgree(arrivals))
  {
    hide Stream, Take, Finish;
    assert arrivals[..0] == [];
    assert !TooLate(s, arrivals[..0], arrivals[0]);
    CompletesExactly(s, arrivals, false);
  }

  lemma FormulaAloneIs(s: Setup, row: RowIndex, col: nat, formula: Bytes)
    requires s.header.Some? ==> s.header.value <= row
    ensures var arrivals := FormulaAlone(row, col, formula);
            && PlainCells(s, arrivals) == [Cell(row, col, CellData(Empty, Some(formula), None))]
            && SheetRange(s, arrivals).NoRange?
  {
    hide Cells, Converted, Valued, Walked, FromSparse;
    var arrivals, cell := FormulaAlone(row, col, formula), Cell(row, col, CellData(Empty, Some(formula), None));
    var plain := s.(useTable := false);
    NothingYet(plain, arrivals[0]);
    CellsGrow(plain, [], arrivals[0]);
    assert [] + arrivals == arrivals;
    ValuedMore([], cell);
    assert [] + [cell] == [cell];
    NoneValued();
    KeptFromHeader(s, arrivals);
  }

  lemma NothingYet(s: Setup, a: Arrival)
    requires !s.useTable && a.raw.Plain?
    ensures Walked(s, []).status.Running? && Cells(s, []) == []
    ensures NextCell(s, [], a) == Cell(a.row, a.col, CellData(a.raw.value, a.formula, a.styleId))
  {
  }

  lemma NoneValued()
    ensures Valued([]) == []
  {
  }

  lemma OneCellNeverRevisits(cell: Cell)
    ensures !Revisits([cell])
  {
  }

  lemma KeptFromHeader(s: Setup, arrivals: seq<Arrival>)
    ensures HaveValues(Valued(PlainCells(s, arrivals)))
    ensures FromHeader(s.header, Valued(PlainCells(s, arrivals)))
  {
    KeptCellsAtLeast(s.header, Converted(false, arrivals));
    ValuedAre(s.header, PlainCells(s, arrivals));
  }
}
