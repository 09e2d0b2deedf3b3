/** The gate at the end of the experiment (`bench/src/bin/packed.rs`, `main`):
    a whole grid encoded batch by batch, and every decoder telling the same
    sheet. */
module PackedGrids {
  import opened Sequences
  import opened DenseWalks
  import opened Packing
  import opened PackedCodec
  import opened PackedDicts
  import opened GridBatches
  import C = Contract

  // ---- what a sheet tells a reader ----

  /** The note of a contract value, as `decode_contract` takes it. */
  function NoteOfValue(v: C.Value): Note {
    match v
    case Int(i) => CellNote(T_INT, Le(i % U64_END, 8))
    case Float(bits) => CellNote(T_FLOAT, Le(bits, 8))
    case Str(text) => CellNote(T_STRING, text)
    case Shared(text) => CellNote(T_SHARED, text)
    case Bool(b) => CellNote(T_BOOL, [if b then 1 else 0])
    case DateTime(bits) => CellNote(T_DATETIME, Le(bits, 8))
    case DateTimeIso(text) => CellNote(T_DT_ISO, text)
    case DurationIso(text) => CellNote(T_DUR_ISO, text)
    case Error(_) => CellNote(T_ERROR, [])
    case _ => CellNote(T_EMPTY, [])
  }

  function ValueNotes(values: seq<C.Value>): (r: seq<Note>)
    ensures |r| == |values| && forall k :: 0 <= k < |values| ==> r[k] == NoteOfValue(values[k])
  {
    seq(|values|, k requires 0 <= k < |values| => NoteOfValue(values[k]))
  }

  function NotesOfRow(row: DenseRow): seq<Note> {
    [RowNote(row.index)] + ValueNotes(row.values)
  }

  function SheetNotes(rows: seq<DenseRow>): seq<Note> {
    FlatMap(NotesOfRow, rows)
  }

  /** A cell says the same as the contract value it becomes. */
  lemma SameNote(c: Cell)
    ensures NoteOfValue(ValueOf(c)) == NoteOf(c)
  {
    hide Le;
  }

  lemma SameNotes(cells: seq<Cell>)
    ensures ValueNotes(Values(cells)) == CellNotes(cells)
  {
    hide NoteOfValue, NoteOf, ValueOf;
    forall k | 0 <= k < |cells|
      ensures ValueNotes(Values(cells))[k] == CellNotes(cells)[k]
    {
      SameNote(cells[k]);
    }
  }

  // ---- a batch ----

  lemma RowNotesMore(b: Batch, r: nat)
    requires 0 < r <= b.Rows() && |b.cells| == b.Rows() * b.width
    ensures (r - 1) * b.width <= r * b.width <= |b.cells|
    ensures RowNotes(b, r) == RowNotes(b, r - 1) + NotesOfRow(RowsOf(b)[r - 1])
  {
    RowIsInside(b, r - 1);
    assert r * b.width == (r - 1) * b.width + b.width;
    var cells := b.cells[(r - 1) * b.width..r * b.width];
    assert RowAt(b.cells, b.width, r - 1) == cells;
    SameNotes(cells);
    ConcatAssociates(RowNotes(b, r - 1), [RowNote(b.firstRow + r - 1)], CellNotes(cells));
  }

  lemma {:induction false} RowNotesAre(b: Batch, r: nat)
    requires r <= b.Rows() && |b.cells| == b.Rows() * b.width
    ensures r * b.width <= |b.cells| && RowNotes(b, r) == SheetNotes(RowsOf(b)[..r])
  {
    if r == 0 {
    } else {
      RowNotesMore(b, r);
      RowNotesAre(b, r - 1);
      var rows := RowsOf(b);
      assert rows[..r] == rows[..r - 1] + [rows[r - 1]];
      hide RowNotes, RowsOf, NotesOfRow, FlatMap;
      FlatMapAppend(NotesOfRow, rows[..r - 1], [rows[r - 1]]);
      FlatMapOne(NotesOfRow, rows[r - 1]);
    }
  }

  lemma BatchNotes(b: Batch)
    requires Rectangular(b)
    ensures |b.cells| == b.Rows() * b.width && RowNotes(b, b.Rows()) == SheetNotes(RowsOf(b))
  {
    WholeBatch(b);
    RowNotesAre(b, b.Rows());
    assert RowsOf(b)[..b.Rows()] == RowsOf(b);
  }

  // ---- every batch ----

  /** Small enough for the buffer's 32-bit counts, with or without a
      dictionary. */
  predicate Small(b: Batch) {
    b.width < U32_END && |b.cells| < U32_END && |Joined(Texts(b.cells, false))| < U32_END
  }

  lemma SmallIsPackable(b: Batch, dict: Option<seq<Bytes>>)
    requires Rectangular(b) && Small(b) && Known(b.cells, dict)
    ensures Packable(b, dict)
  {
    WholeBatch(b);
    SectionSizes(b.cells);
    hide Joined, Texts, Fixed;
  }

  method EncodeAll(batches: seq<Batch>, useDict: bool) returns (encoded: seq<Bytes>)
    ensures |encoded| == |batches| && forall k :: 0 <= k < |batches| ==> encoded[k] == Packed(batches[k], useDict)
  {
    hide Packed;
    encoded := [];
    for k := 0 to |batches|
      invariant |encoded| == k && forall j :: 0 <= j < k ==> encoded[j] == Packed(batches[j], useDict)
    {
      var out := EncodePacked(batches[k], useDict);
      encoded := encoded + [out];
    }
  }

  method DecodeAll(encoded: seq<Bytes>, dict: Option<seq<Bytes>>, ghost batches: seq<Batch>)
    returns (notes: seq<Note>)
    requires AllRectangular(batches) && AllKnown(batches, dict)
    requires forall k :: 0 <= k < |batches| ==> Small(batches[k])
    requires |encoded| == |batches| && forall k :: 0 <= k < |batches| ==> encoded[k] == Packed(batches[k], dict.Some?)
    ensures notes == SheetNotes(BatchRows(batches))
  {
    hide Packed, Small, Known, Rectangular, RowsOf, RowNotes, FlatMap, Packable;
    notes := [];
    NothingTold();
    for k := 0 to |encoded|
      invariant notes == SheetNotes(BatchRows(batches[..k]))
    {
      ghost var b := batches[k];
      SmallIsPackable(b, dict);
      BatchNotes(b);
      var got := DecodePacked(encoded[k], dict, b);
      assert batches[..k + 1] == batches[..k] + [b];
      LastBatch(batches[..k], b);
      FlatMapAppend(NotesOfRow, BatchRows(batches[..k]), RowsOf(b));
      notes := notes + got;
    }
    assert batches[..|encoded|] == batches;
  }

  lemma NothingTold()
    ensures SheetNotes(BatchRows([])) == []
  {
  }

  /** Nothing is lost: packed with a dictionary or without, and decoded batch by
      batch, a grid tells its own rows and cells, in order. */
  method Lossless(batches: seq<Batch>, dict: Dict) returns (plain: seq<Note>, coded: seq<Note>)
    requires AllRectangular(batches) && AllKnown(batches, Some(dict.entries))
    requires forall k :: 0 <= k < |batches| ==> Small(batches[k])
    ensures plain == SheetNotes(BatchRows(batches)) == coded
  {
    hide Packed, Small, Rectangular, FlatMap;
    var encoded := EncodeAll(batches, false);
    plain := DecodeAll(encoded, None, batches);
    encoded := EncodeAll(batches, true);
    coded := DecodeAll(encoded, Some(dict.entries), batches);
  }
}
