/** Cutting a dense grid into rectangular batches as its rows are completed
    (`bench/src/bin/packed.rs`, `push_row`). */
module GridBatches {
  import opened Sequences
  import opened Arithmetic
  import opened DenseWalks
  import opened Packing
  import C = Contract

  // ---- cells, as the contract's values ----

  /** `Cell::to_pb`. */
  function ValueOf(c: Cell): C.Value {
    match c
    case Empty => C.Value.Empty
    case Int(v) => C.Value.Int(v)
    case Float(bits) => C.Value.Float(bits)
    case Str(text) => C.Value.Str(text)
    case Shared(text, _) => C.Value.Shared(text)
    case Bool(b) => C.Value.Bool(b)
    case DateTime(bits) => C.Value.DateTime(bits)
    case DtIso(text) => C.Value.DateTimeIso(text)
    case DurIso(text) => C.Value.DurationIso(text)
    case Error => C.Value.Error(0)
  }

  function Values(cells: seq<Cell>): (r: seq<C.Value>)
    ensures |r| == |cells| && forall k :: 0 <= k < |cells| ==> r[k] == ValueOf(cells[k])
  {
    seq(|cells|, k requires 0 <= k < |cells| => ValueOf(cells[k]))
  }

  function EmptyCells(n: nat): (r: seq<Cell>)
    ensures |r| == n && forall k :: 0 <= k < n ==> r[k] == Cell.Empty
  {
    seq(n, _ => Cell.Empty)
  }

  /** The dictionary, if there is one, has the text of every shared string. */
  predicate Known(cells: seq<Cell>, dict: Option<seq<Bytes>>) {
    dict.Some? ==>
      forall k :: 0 <= k < |cells| && cells[k].Shared? ==>
                    cells[k].id < |dict.value| && dict.value[cells[k].id] == cells[k].text
  }

  lemma KnownJoins(a: seq<Cell>, b: seq<Cell>, dict: Option<seq<Bytes>>)
    requires Known(a, dict) && Known(b, dict)
    ensures Known(a + b, dict)
  {
  }

  lemma EmptyIsKnown(n: nat, dict: Option<seq<Bytes>>)
    ensures Known(EmptyCells(n), dict) && Known([], dict)
    ensures Values(EmptyCells(n)) == Blanks(n)
  {
  }

  // ---- blocks of rows ----

  /** Whole rows, and at least one, at indices that fit their field. */
  predicate Rectangular(b: Batch) {
    b.width > 0 && b.cells != [] && |b.cells| % b.width == 0 && b.firstRow + b.Rows() <= U32_END
  }

  lemma RowsInside(rows: nat, width: nat, j: nat)
    requires j < rows
    ensures j * width + width == (j + 1) * width <= rows * width
  {
    Distributes(j, 1, width);
    Distributes(j + 1, rows - j - 1, width);
  }

  function RowAt(cells: seq<Cell>, width: nat, j: nat): seq<Cell> {
    if (j + 1) * width <= |cells| then cells[(j + 1) * width - width..(j + 1) * width] else []
  }

  /** Row `j` of a batch has index `firstRow + j`. */
  function RowsOf(b: Batch): (r: seq<DenseRow>)
    ensures |r| == b.Rows()
    ensures forall j :: 0 <= j < |r| ==> r[j] == DenseRow(b.firstRow + j, Values(RowAt(b.cells, b.width, j)))
  {
    seq(b.Rows(), j requires 0 <= j => DenseRow(b.firstRow + j, Values(RowAt(b.cells, b.width, j))))
  }

  function BatchRows(batches: seq<Batch>): seq<DenseRow> {
    FlatMap(RowsOf, batches)
  }

  lemma LastBatch(batches: seq<Batch>, last: Batch)
    ensures BatchRows(batches + [last]) == BatchRows(batches) + RowsOf(last)
    ensures BatchRows(batches) + [] == BatchRows(batches)
  {
    FlatMapAppend(RowsOf, batches, [last]);
    FlatMapOne(RowsOf, last);
  }

  predicate AllRectangular(batches: seq<Batch>) {
    forall k :: 0 <= k < |batches| ==> Rectangular(batches[k])
  }

  predicate AllKnown(batches: seq<Batch>, dict: Option<seq<Bytes>>) {
    forall k :: 0 <= k < |batches| ==> Known(batches[k].cells, dict)
  }

  lemma SameSheetJoins(a: seq<DenseRow>, b: seq<DenseRow>, before: seq<DenseRow>, after: seq<DenseRow>)
    requires SameSheet(a, b)
    ensures SameSheet(before + a + after, before + b + after)
  {
    hide ValueIn;
  }

  lemma SameSheetThrough(a: seq<DenseRow>, b: seq<DenseRow>, c: seq<DenseRow>)
    requires SameSheet(a, b) && SameSheet(b, c)
    ensures SameSheet(a, c)
  {
    hide ValueIn;
  }

  lemma SameSheetSelf(rows: seq<DenseRow>)
    ensures SameSheet(rows, rows)
  {
  }

  // ---- appending and widening ----

  /** A row of the right width appended to a block of rows. */
  lemma AppendRow(b: Batch, rows: nat, cells: seq<Cell>)
    requires b.width > 0 && |b.cells| == rows * b.width && |cells| == b.width && b.firstRow + rows < U32_END
    ensures Rectangular(b.(cells := b.cells + cells)) && b.(cells := b.cells + cells).Rows() == rows + 1
    ensures RowsOf(b.(cells := b.cells + cells)) == RowsOf(b) + [DenseRow(b.firstRow + rows, Values(cells))]
  {
    hide ValueOf;
    var longer := b.(cells := b.cells + cells);
    assert (rows + 1) * b.width == rows * b.width + b.width;
    ExactDivision(rows + 1, b.width);
    ExactDivision(rows, b.width);
    forall j | 0 <= j < rows
      ensures RowAt(longer.cells, b.width, j) == RowAt(b.cells, b.width, j)
    {
      RowsInside(rows, b.width, j);
    }
    assert RowAt(longer.cells, b.width, rows) == cells;
  }

  /** `wider.extend_from_slice(..)` and the blanks, row after row. */
  method Widen(pending: seq<Cell>, narrow: nat, w: nat, ghost rows: nat, ghost first: U32,
               ghost dict: Option<seq<Bytes>>)
    returns (wider: seq<Cell>)
    requires 0 < narrow <= w && |pending| == rows * narrow && first + rows <= U32_END && Known(pending, dict)
    ensures |wider| == rows * w && Known(wider, dict)
    ensures SameSheet(RowsOf(Batch(first, w, wider)), RowsOf(Batch(first, narrow, pending)))
  {
    hide RowAt, SameSheet, RowsOf, Known;
    wider := [];
    ExactDivision(rows, narrow);
    var n := |pending| / narrow;
    ghost var was := RowsOf(Batch(first, narrow, pending));
    NoRows(first, w, was);
    EmptyIsKnown(0, dict);
    for r := 0 to n
      invariant |wider| == r * w && Known(wider, dict)
      invariant SameSheet(RowsOf(Batch(first, w, wider)), was[..r])
    {
      RowsInside(n, narrow, r);
      WidenOne(pending, narrow, w, n, first, wider, r);
      WidenedKnown(pending, narrow, w, r, wider, dict);
      wider := wider + (pending[r * narrow..(r + 1) * narrow] + EmptyCells(w - narrow));
    }
    assert was[..n] == was;
  }

  lemma NoRows(first: U32, w: nat, rows: seq<DenseRow>)
    requires w > 0
    ensures SameSheet(RowsOf(Batch(first, w, [])), rows[..0])
  {
  }

  lemma WidenedKnown(pending: seq<Cell>, narrow: nat, w: nat, r: nat, wider: seq<Cell>, dict: Option<seq<Bytes>>)
    requires narrow <= w && r * narrow <= (r + 1) * narrow <= |pending| && Known(pending, dict) && Known(wider, dict)
    ensures Known(wider + (pending[r * narrow..(r + 1) * narrow] + EmptyCells(w - narrow)), dict)
  {
    var row := pending[r * narrow..(r + 1) * narrow];
    assert Known(row, dict);
    hide Known;
    EmptyIsKnown(w - narrow, dict);
    KnownJoins(row, EmptyCells(w - narrow), dict);
    KnownJoins(wider, row + EmptyCells(w - narrow), dict);
  }

  lemma WidenOne(pending: seq<Cell>, narrow: nat, w: nat, rows: nat, first: U32, wider: seq<Cell>, r: nat)
    requires 0 < narrow <= w && |pending| == rows * narrow && r < rows && |wider| == r * w
    requires first + rows <= U32_END
    requires r * narrow + narrow == (r + 1) * narrow <= |pending|
    requires Batch(first, narrow, pending).Rows() == rows
    requires SameSheet(RowsOf(Batch(first, w, wider)), RowsOf(Batch(first, narrow, pending))[..r])
    ensures var more := wider + (pending[r * narrow..(r + 1) * narrow] + EmptyCells(w - narrow));
            && |more| == (r + 1) * w
            && SameSheet(RowsOf(Batch(first, w, more)), RowsOf(Batch(first, narrow, pending))[..r + 1])
  {
    hide RowAt, ValueIn, Values;
    var row := pending[r * narrow..(r + 1) * narrow];
    assert (r + 1) * w == r * w + w;
    AppendRow(Batch(first, w, wider), r, row + EmptyCells(w - narrow));
    Wider(pending, narrow, w, r, row, first + r);
  }

  lemma Wider(pending: seq<Cell>, width: nat, w: nat, r: nat, row: seq<Cell>, index: nat)
    requires width <= w && |row| == width && r * width + width == (r + 1) * width <= |pending|
    requires row == pending[r * width..(r + 1) * width]
    ensures SameRow(DenseRow(index, Values(row + EmptyCells(w - width))),
                    DenseRow(index, Values(RowAt(pending, width, r))))
  {
    assert RowAt(pending, width, r) == row;
  }

  lemma WholeBatch(b: Batch)
    requires Rectangular(b)
    ensures |b.cells| == b.Rows() * b.width
  {
  }

  // ---- batching ----

  class Grid {
    const batchRows: nat
    var batches: seq<Batch>
    var pending: seq<Cell>
    var pendingFirst: U32
    var pendingWidth: nat

    /** Every batch is rectangular and full, and what is pending is not; and
        the dictionary has every shared string of both. */
    ghost predicate Valid(dict: Option<seq<Bytes>>)
      reads this
    {
      && AllRectangular(batches)
      && (forall k :: 0 <= k < |batches| ==> batches[k].Rows() == Max(batchRows, 1))
      && (pending != [] ==> Rectangular(Pending()) && Pending().Rows() < batchRows)
      && AllKnown(batches, dict) && Known(pending, dict)
    }

    function Pending(): Batch
      reads this
    {
      Batch(pendingFirst, pendingWidth, pending)
    }

    /** The rows not in a batch yet. */
    ghost function PendingRows(): seq<DenseRow>
      reads this
    {
      if pending == [] then [] else RowsOf(Pending())
    }

    /** Every row pushed so far. */
    ghost function Rows(): seq<DenseRow>
      reads this
    {
      BatchRows(batches) + PendingRows()
    }

    constructor (batchRows: nat, width: nat)
      ensures forall dict :: Valid(dict)
      ensures Rows() == [] && batches == [] && pending == [] && this.batchRows == batchRows
    {
      this.batchRows := batchRows;
      batches, pending, pendingFirst, pendingWidth := [], [], 0, width;
    }

    /** Append one completed row. Earlier pending rows are re-padded if the
        grid has widened since, so every batch stays rectangular. */
    method PushRow(index: U32, w: nat, cells: seq<Cell>, ghost dict: Option<seq<Bytes>>)
      requires Valid(dict) && w > 0 && |cells| == w && Known(cells, dict)
      requires pending != [] ==> pendingWidth <= w && index == pendingFirst + Pending().Rows()
      modifies this
      ensures Valid(dict) && SameSheet(Rows(), old(Rows()) + [DenseRow(index, Values(cells))])
      ensures pending != [] ==> pendingWidth == w && index + 1 == pendingFirst + Pending().Rows()
    {
      hide RowAt, ValueIn, FlatMap, SameSheet, RowsOf, Known;
      ghost var was, done, rows := PendingRows(), BatchRows(batches), if pending == [] then 0 else Pending().Rows();
      Repad(index, w, dict);
      AppendRow(Pending(), rows, cells);
      KnownJoins(pending, cells, dict);
      ghost var row, padded := [DenseRow(index, Values(cells))], RowsOf(Pending());
      SameSheetJoins(padded, was, done, row);
      ConcatAssociates(done, padded, row);
      pending := pending + cells;
      assert RowsOf(Pending()) == padded + row;
      if |pending| / pendingWidth >= batchRows {
        LastBatch(batches, Pending());
        batches := batches + [Pending()];
        EmptyIsKnown(0, dict);
        pending := [];
        assert Rows() == done + (padded + row);
      }
    }

    /** Make room for a row of `w` cells: an empty block starts at its index, and
        a narrower one is re-padded. */
    method Repad(index: U32, w: nat, ghost dict: Option<seq<Bytes>>)
      requires Valid(dict) && w > 0
      requires pending != [] ==> pendingWidth <= w && index == pendingFirst + Pending().Rows()
      modifies this`pending, this`pendingFirst, this`pendingWidth
      ensures pendingWidth == w && |pending| == old(if pending == [] then 0 else Pending().Rows()) * w
      ensures pendingFirst == old(if pending == [] then index else pendingFirst)
      ensures SameSheet(RowsOf(Pending()), old(PendingRows())) && Known(pending, dict)
    {
      hide RowAt, ValueIn, FlatMap, RowsOf, Known;
      if pending == [] {
        pendingFirst := index;
        pendingWidth := w;
        NoRows(index, w, []);
        return;
      }
      WholeBatch(Pending());
      SameSheetSelf(RowsOf(Pending()));
      if pendingWidth < w {
        pending := Widen(pending, pendingWidth, w, Pending().Rows(), pendingFirst, dict);
        pendingWidth := w;
      }
    }
  }
}
