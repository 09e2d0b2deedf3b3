/** Collecting a sheet's formulas under two budgets (`src/service.rs`). */
module FormulaCollecting {
  import opened Sequences
  import opened DenseBudget
  import opened Channels
  import opened Formulas
  import opened FormulaStreams

  /** `size_of::<FormulaCell>()`: two 32-bit numbers and a string. */
  const SLOT_BYTES: nat := 32

  function Cost(cell: FormulaCell): nat {
    SatAdd(|cell.text|, SLOT_BYTES)
  }

  /** The cells collected out of those the reader yields. */
  function WithText(cells: seq<FormulaCell>): (kept: seq<FormulaCell>)
    ensures |kept| <= |cells|
  {
    if cells == [] then []
    else
      var n := |cells| - 1;
      WithText(cells[..n]) + if cells[n].text == [] then [] else [cells[n]]
  }

  predicate ExtentWithin(cells: seq<FormulaCell>, max: nat) {
    cells == [] || BoxWithin(BoxOf(cells), max)
  }

  /** Adding a cell can only grow the extent, so one that is within the
      budget was within it all along. */
  lemma ExtentOnlyGrows(cells: seq<FormulaCell>, n: nat, max: nat)
    requires n <= |cells| && ExtentWithin(cells, max)
    ensures ExtentWithin(cells[..n], max)
  {
    hide BoxOf;
    if n > 0 {
      var all, some := BoxOf(cells), BoxOf(cells[..n]);
      forall k | 0 <= k < n
        ensures Inside(all, cells[..n][k])
      {
        assert cells[..n][k] == cells[k];
      }
      SmallerIsWithin(Height(some), some.lastCol + 1, Height(all), all.lastCol + 1, max);
    }
  }

  /** How long the formulas are together. */
  function TextLengths(cells: seq<FormulaCell>): nat {
    Sum((cell: FormulaCell) => |cell.text|, cells)
  }

  /** Both budgets: the cells of the extent, counted from column A, and the
      formulas' bytes with 32 more for each. A budget of the largest 64-bit
      number is none, as both counts saturate there. */
  ghost predicate WithinBudgets(cells: seq<FormulaCell>, maxDenseCells: nat, maxBytes: nat) {
    && (cells != [] && maxDenseCells < 0xFFFF_FFFF_FFFF_FFFF ==>
          var box := BoxOf(cells);
          (box.lastRow - box.firstRow + 1) * (box.lastCol + 1) <= maxDenseCells)
    && (maxBytes < 0xFFFF_FFFF_FFFF_FFFF ==> TextLengths(cells) + 32 * |cells| <= maxBytes)
  }

  lemma {:induction false} CostsAre(cells: seq<FormulaCell>)
    ensures Min(Sum(Cost, cells), U64_MAX) == Min(TextLengths(cells) + 32 * |cells|, U64_MAX)
  {
    if cells == [] {
    } else {
      CostsAre(cells[..|cells| - 1]);
    }
  }

  /** The two checks as they are computed. */
  lemma {:induction false} BudgetsAre(cells: seq<FormulaCell>, maxDenseCells: nat, maxBytes: nat)
    ensures WithinBudgets(cells, maxDenseCells, maxBytes) <==>
            ExtentWithin(cells, maxDenseCells) && Min(Sum(Cost, cells), U64_MAX) <= maxBytes
  {
    hide Sum, TextLengths;
    CostsAre(cells);
    if cells != [] {
      var box := BoxOf(cells);
      hide BoxOf;
      WithinIs(box.lastRow - box.firstRow + 1, box.lastCol + 1, maxDenseCells);
    }
  }

  /** The first and last rows and the last column of some cells. */
  predicate Tracks(cells: seq<FormulaCell>, rows: Option<(U32, U32)>, lastCol: U32) {
    && rows == (if cells == [] then None else Some((BoxOf(cells).firstRow, BoxOf(cells).lastRow)))
    && lastCol == (if cells == [] then 0 else BoxOf(cells).lastCol)
  }

  function RowsWith(rows: Option<(U32, U32)>, row: U32): (U32, U32) {
    if rows.None? then (row, row) else (Min(rows.value.0, row), Max(rows.value.1, row))
  }

  class FormulaCollector {
    const maxDenseCells: nat
    const maxBytes: nat
    var cells: seq<FormulaCell>
    var rows: Option<(U32, U32)>
    var lastCol: U32
    var bytes: nat

    /** The running extent is the box of what is collected, which is within
        the budget, and so is what it costs. */
    ghost predicate Valid()
      reads this
    {
      && ExtentWithin(cells, maxDenseCells)
      && Tracks(cells, rows, lastCol)
      && bytes == Min(Sum(Cost, cells), U64_MAX)
      && bytes <= maxBytes
    }

    constructor (maxDenseCells: nat, maxBytes: nat)
      ensures Valid() && cells == []
      ensures this.maxDenseCells == maxDenseCells && this.maxBytes == maxBytes
    {
      this.maxDenseCells, this.maxBytes := maxDenseCells, maxBytes;
      cells, rows, lastCol, bytes := [], None, 0, 0;
    }

    /** An empty formula always passes and leaves no trace. Any other is kept
        exactly when the budgets hold for all the formulas kept and this one;
        nothing is promised of the fields after a refusal. */
    method Push(cell: FormulaCell) returns (ok: bool)
      requires Valid()
      modifies this
      ensures ok ==> Valid() && cells == old(cells) + if cell.text == [] then [] else [cell]
      ensures ok <==> cell.text == [] || WithinBudgets(old(cells) + [cell], maxDenseCells, maxBytes)
    {
      hide Sum, Tracks, DenseWithin, Cost, ExtentWithin, SatAdd, WithinBudgets;
      if cell.text == [] {
        return true;
      }
      Extended(cells, cell, rows, lastCol, maxDenseCells);
      Judged(cells, cell, maxDenseCells, maxBytes);
      var first, last := cell.row, cell.row;
      if rows.Some? {
        first, last := Min(rows.value.0, cell.row), Max(rows.value.1, cell.row);
      }
      rows := Some((first, last));
      lastCol := Max(lastCol, cell.col);
      if !DenseWithin(last as int - first + 1, lastCol as int + 1, maxDenseCells) {
        return false;
      }
      bytes := SatAdd(bytes, Cost(cell));
      if bytes > maxBytes {
        return false;
      }
      cells := cells + [cell];
      return true;
    }
  }

  /** The two checks of a push together judge everything collected with it. */
  lemma Judged(cells: seq<FormulaCell>, cell: FormulaCell, maxDenseCells: nat, maxBytes: nat)
    ensures SatAdd(Min(Sum(Cost, cells), U64_MAX), Cost(cell)) == Min(Sum(Cost, cells + [cell]), U64_MAX)
    ensures WithinBudgets(cells + [cell], maxDenseCells, maxBytes) <==>
            && ExtentWithin(cells + [cell], maxDenseCells)
            && SatAdd(Min(Sum(Cost, cells), U64_MAX), Cost(cell)) <= maxBytes
  {
    Costlier(cells, cell);
    BudgetsAre(cells + [cell], maxDenseCells, maxBytes);
    hide ExtentWithin, SatAdd, Sum, Cost, WithinBudgets;
  }

  lemma Extended(cells: seq<FormulaCell>, cell: FormulaCell, rows: Option<(U32, U32)>, lastCol: U32, max: nat)
    requires Tracks(cells, rows, lastCol)
    ensures var rows', lastCol' := RowsWith(rows, cell.row), Max(lastCol, cell.col);
            && Tracks(cells + [cell], Some(rows'), lastCol')
            && (ExtentWithin(cells + [cell], max) <==>
                DenseWithin(rows'.1 as int - rows'.0 + 1, lastCol' as int + 1, max))
  {
    hide BoxOf, DenseWithin;
    LargerBox(cells, cell);
  }

  lemma Costlier(cells: seq<FormulaCell>, cell: FormulaCell)
    ensures SatAdd(Min(Sum(Cost, cells), U64_MAX), Cost(cell)) == Min(Sum(Cost, cells + [cell]), U64_MAX)
  {
    hide Cost;
    assert (cells + [cell])[..|cells|] == cells;
  }

  datatype Collected = Collected(cells: seq<FormulaCell>) | Unread | OverBudget

  /** How collecting a sheet ends. */
  ghost function Outcome(read: seq<FormulaCell>, readError: bool, maxDenseCells: nat, maxBytes: nat): Collected {
    if !WithinBudgets(WithText(read), maxDenseCells, maxBytes) then OverBudget
    else if readError then Unread
    else Collected(WithText(read))
  }

  /** `xlsx_formulas` and `xlsb_formulas`: cell by cell, up to a read error or
      the one that is refused. Where that happens makes no difference: the sheet
      is refused exactly when all its formulas together pass a budget. */
  method Collect(read: seq<FormulaCell>, readError: bool, maxDenseCells: nat, maxBytes: nat) returns (r: Collected)
    ensures r == Outcome(read, readError, maxDenseCells, maxBytes)
  {
    hide Sum, BoxOf, WithinBudgets, ExtentWithin, Cost, WithText;
    WithNothing();
    var collector := new FormulaCollector(maxDenseCells, maxBytes);
    assert read[..0] == [];
    for k := 0 to |read|
      invariant collector.Valid() && collector.cells == WithText(read[..k])
      invariant collector.maxDenseCells == maxDenseCells && collector.maxBytes == maxBytes
    {
      WithOneMore(read, k);
      var ok := collector.Push(read[k]);
      if !ok {
        OneCellTooMany(read, k + 1, maxDenseCells, maxBytes);
        return OverBudget;
      }
    }
    assert read[..|read|] == read;
    BudgetsAre(collector.cells, maxDenseCells, maxBytes);
    return if readError then Unread else Collected(collector.cells);
  }

  lemma WithNothing()
    ensures WithText([]) == []
  {
  }

  lemma WithOneMore(read: seq<FormulaCell>, k: nat)
    requires k < |read|
    ensures WithText(read[..k + 1]) == WithText(read[..k]) + if read[k].text == [] then [] else [read[k]]
  {
    assert read[..k + 1][..k] == read[..k];
  }

  /** A sheet past a budget at some cell is past it at the end. */
  lemma OneCellTooMany(read: seq<FormulaCell>, k: nat, maxDenseCells: nat, maxBytes: nat)
    requires k <= |read|
    requires !WithinBudgets(WithText(read[..k]), maxDenseCells, maxBytes)
    ensures !WithinBudgets(WithText(read), maxDenseCells, maxBytes)
  {
    hide Sum, ExtentWithin, WithText, Cost, WithinBudgets;
    KeptGrows(read, k);
    BudgetsAre(WithText(read[..k]), maxDenseCells, maxBytes);
    BudgetsAre(WithText(read), maxDenseCells, maxBytes);
    var some, all := WithText(read[..k]), WithText(read);
    if ExtentWithin(all, maxDenseCells) {
      ExtentOnlyGrows(all, |some|, maxDenseCells);
    }
    SumAppend(Cost, some, all[|some|..]);
    assert all == some + all[|some|..];
  }

  lemma {:induction false} KeptGrows(read: seq<FormulaCell>, k: nat)
    requires k <= |read|
    ensures WithText(read[..k]) <= WithText(read)
    decreases |read| - k
  {
    if k < |read| {
      assert read[..k + 1][..k] == read[..k];
      KeptGrows(read, k + 1);
    } else {
      assert read[..k] == read;
    }
  }

  /** What a client that never goes away then receives. */
  ghost function FormulaEvents(collected: Collected, maxDenseCells: nat): seq<FormulaEvent> {
    match collected
    case OverBudget => [FormulaRefused]
    case Unread => [FormulaUnread]
    case Collected(cells) => DenseStream(FromSparse(cells), maxDenseCells)
  }

  /** A sheet past a budget is refused, one that cannot be read fails, and any
      other is streamed whole, without a second refusal. */
  ghost predicate IsSheetStream(read: seq<FormulaCell>, readError: bool, maxDenseCells: nat, maxBytes: nat,
                                events: seq<FormulaEvent>)
  {
    if !WithinBudgets(WithText(read), maxDenseCells, maxBytes) then events == [FormulaRefused]
    else if readError then events == [FormulaUnread]
    else
      && IsFormulaStream(WithText(read), maxDenseCells, events)
      && FormulaRefused !in events && FormulaUnread !in events
  }

  lemma {:induction false} SheetStreamIs(read: seq<FormulaCell>, readError: bool, maxDenseCells: nat, maxBytes: nat)
    ensures IsSheetStream(read, readError, maxDenseCells, maxBytes,
                          FormulaEvents(Outcome(read, readError, maxDenseCells, maxBytes), maxDenseCells))
  {
    hide WithText, DenseStream, IsFormulaStream, BoxOf, WithinBudgets, TextRow;
    var cells := WithText(read);
    FormulaStreamIs(cells, maxDenseCells);
    if WithinBudgets(cells, maxDenseCells, maxBytes) {
      NoSecondRefusal(cells, maxDenseCells, maxBytes, DenseStream(FromSparse(cells), maxDenseCells));
    }
  }

  lemma NoSecondRefusal(cells: seq<FormulaCell>, maxDenseCells: nat, maxBytes: nat, events: seq<FormulaEvent>)
    requires IsFormulaStream(cells, maxDenseCells, events) && WithinBudgets(cells, maxDenseCells, maxBytes)
    ensures FormulaRefused !in events && FormulaUnread !in events
  {
    hide BoxOf, TextLengths, TextAt;
    forall k | 0 < k < |events|
      ensures events[k].FormulaRow?
    {
      assert IsFormulaRow(cells, BoxOf(cells).firstRow + k - 1, BoxOf(cells).lastCol, events[k]);
    }
  }

  /** The incremental formula path: collect, then stream. */
  method StreamFormulas(read: seq<FormulaCell>, readError: bool, maxDenseCells: nat, maxBytes: nat,
                        tx: Channel<FormulaEvent>)
    requires tx.Valid() && tx.sent == []
    modifies tx
    ensures var all := FormulaEvents(Outcome(read, readError, maxDenseCells, maxBytes), maxDenseCells);
            && tx.Valid() && tx.sent == Seen(all, tx.patience)
            && (|all| <= tx.patience ==> IsSheetStream(read, readError, maxDenseCells, maxBytes, tx.sent))
  {
    hide Sum, BoxOf, SatMul, Seen, WithinBudgets, IsFormulaStream, IsSheetStream, WithText, DenseStream;
    SheetStreamIs(read, readError, maxDenseCells, maxBytes);
    WholeSeen(FormulaEvents(Outcome(read, readError, maxDenseCells, maxBytes), maxDenseCells), tx.patience);
    var collected := Collect(read, readError, maxDenseCells, maxBytes);
    match collected
    case Collected(cells) =>
      EmitSparseFormulas(cells, maxDenseCells, tx);
    case Unread =>
      var ok := tx.Send(FormulaUnread);
      assert [] + [FormulaUnread] == [FormulaUnread];
    case OverBudget =>
      var ok := tx.Send(FormulaRefused);
      assert [] + [FormulaRefused] == [FormulaRefused];
  }
}
