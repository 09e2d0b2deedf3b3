/** The packed columnar encoding (`bench/src/bin/packed.rs`): one batch of dense
    rows as four little-endian sections. */
module Packing {
  import opened Sequences
  import opened Arithmetic

  // ---- little-endian numbers ----

  /** The low `size` bytes of `n`, lowest first. */
  function Le(n: nat, size: nat): (r: Bytes)
    ensures |r| == size
  {
    if size == 0 then [] else [n % 256] + Le(n / 256, size - 1)
  }

  function FromLe(bytes: Bytes): nat {
    if bytes == [] then 0 else bytes[0] + 256 * FromLe(bytes[1..])
  }

  function Power256(size: nat): (p: nat)
    ensures p > 0
  {
    if size == 0 then 1 else 256 * Power256(size - 1)
  }

  /** Byte `k` of a number is the `k`-th lowest. */
  lemma {:induction false} LeBytes(n: nat, size: nat, k: nat)
    requires k < size
    ensures Le(n, size)[k] == (n / Power256(k)) % 256
  {
    if k > 0 {
      LeBytes(n / 256, size - 1, k - 1);
      Shifted(n, Power256(k - 1));
    }
  }

  lemma Shifted(n: nat, unit: nat)
    requires unit > 0
    ensures 256 * unit > 0 && (n / 256) / unit == n / (256 * unit)
  {
    var q := (n / 256) / unit;
    assert n / 256 == q * unit + (n / 256) % unit;
    assert q * (256 * unit) == 256 * (q * unit);
    Quotient(n, q, 256 * ((n / 256) % unit) + n % 256, 256 * unit);
  }

  /** A number that fits its field is read back; a longer one is cut. */
  lemma {:induction false} LeRoundTrip(n: nat, size: nat)
    ensures n < Power256(size) ==> FromLe(Le(n, size)) == n
  {
    if size == 0 {
    } else {
      LeRoundTrip(n / 256, size - 1);
      assert Le(n, size)[1..] == Le(n / 256, size - 1);
    }
  }

  const U32_END: nat := 0x1_0000_0000
  const U64_END: nat := 0x1_0000_0000_0000_0000

  lemma LeU32(n: nat)
    ensures n < U32_END ==> FromLe(Le(n, 4)) == n
  {
    assert Power256(4) == 256 * (256 * (256 * (256 * Power256(0))));
    LeRoundTrip(n, 4);
  }

  lemma LeU64(n: nat)
    ensures n < U64_END ==> FromLe(Le(n, 8)) == n
  {
    assert Power256(8) == 256 * (256 * (256 * (256 * Power256(4))));
    assert Power256(4) == 256 * (256 * (256 * (256 * Power256(0))));
    LeRoundTrip(n, 8);
  }

  // ---- cells ----

  type I64 = n: int | -0x8000_0000_0000_0000 <= n < 0x8000_0000_0000_0000
  type U64 = n: int | 0 <= n < 0x1_0000_0000_0000_0000
  type U32 = n: int | 0 <= n < 0x1_0000_0000

  /** Floats and date-times are their 64-bit patterns. */
  datatype Cell =
    | Empty
    | Int(v: I64)
    | Float(bits: U64)
    | Str(text: Bytes)
    | Shared(text: Bytes, id: U32)
    | Bool(b: bool)
    | DateTime(bits: U64)
    | DtIso(text: Bytes)
    | DurIso(text: Bytes)
    | Error

  const T_EMPTY: byte := 0
  const T_INT: byte := 1
  const T_FLOAT: byte := 2
  const T_STRING: byte := 3
  const T_SHARED: byte := 4
  const T_BOOL: byte := 5
  const T_DATETIME: byte := 6
  const T_DT_ISO: byte := 7
  const T_DUR_ISO: byte := 8
  const T_ERROR: byte := 9

  function Tag(c: Cell): (tag: byte)
    ensures tag == 0 <==> c.Empty?
    ensures tag == 1 <==> c.Int?
    ensures tag == 2 <==> c.Float?
    ensures tag == 3 <==> c.Str?
    ensures tag == 4 <==> c.Shared?
    ensures tag == 5 <==> c.Bool?
    ensures tag == 6 <==> c.DateTime?
    ensures tag == 7 <==> c.DtIso?
    ensures tag == 8 <==> c.DurIso?
    ensures tag == 9 <==> c.Error?
  {
    match c
    case Empty => T_EMPTY
    case Int(_) => T_INT
    case Float(_) => T_FLOAT
    case Str(_) => T_STRING
    case Shared(_, _) => T_SHARED
    case Bool(_) => T_BOOL
    case DateTime(_) => T_DATETIME
    case DtIso(_) => T_DT_ISO
    case DurIso(_) => T_DUR_ISO
    case Error => T_ERROR
  }

  /** `v as u64` and back: two's complement. */
  function AsU64(v: I64): U64 {
    if v < 0 then v + 0x1_0000_0000_0000_0000 else v
  }

  function AsI64(v: U64): I64 {
    if v < 0x8000_0000_0000_0000 then v else v - 0x1_0000_0000_0000_0000
  }

  /** What an order-sensitive digest is fed for a cell (`digest_into`). */
  datatype Note = RowNote(index: nat) | CellNote(tag: byte, payload: Bytes)

  function NoteOf(c: Cell): Note {
    match c
    case Empty => CellNote(T_EMPTY, [])
    case Int(v) => CellNote(T_INT, Le(AsU64(v), 8))
    case Float(bits) => CellNote(T_FLOAT, Le(bits, 8))
    case Str(text) => CellNote(T_STRING, text)
    case Shared(text, _) => CellNote(T_SHARED, text)
    case Bool(b) => CellNote(T_BOOL, [if b then 1 else 0])
    case DateTime(bits) => CellNote(T_DATETIME, Le(bits, 8))
    case DtIso(text) => CellNote(T_DT_ISO, text)
    case DurIso(text) => CellNote(T_DUR_ISO, text)
    case Error => CellNote(T_ERROR, [])
  }

  /** A cell's note says everything about it but which dictionary entry a
      shared string came from. */
  lemma {:induction false} NotesTellCellsApart(c: Cell, d: Cell)
    ensures NoteOf(c) == NoteOf(d) <==> c == d || (c.Shared? && d.Shared? && c.text == d.text)
  {
    if c.Int? && d.Int? {
      LeU64(AsU64(c.v));
      LeU64(AsU64(d.v));
      assert AsI64(AsU64(c.v)) == c.v && AsI64(AsU64(d.v)) == d.v;
    } else if (c.Float? && d.Float?) || (c.DateTime? && d.DateTime?) {
      LeU64(c.bits);
      LeU64(d.bits);
    }
  }

  // ---- the sections ----

  /** A batch of dense rows: row-major, `width` cells a row. */
  datatype Batch = Batch(firstRow: U32, width: nat, cells: seq<Cell>) {
    /** `cells.len().checked_div(width).unwrap_or(0)` */
    function Rows(): nat {
      if width == 0 then 0 else |cells| / width
    }
  }

  /** What a cell puts in the fixed-width section. */
  function FixedOf(c: Cell, useDict: bool): seq<U64> {
    match c
    case Int(v) => [AsU64(v)]
    case Float(bits) => [bits]
    case DateTime(bits) => [bits]
    case Bool(b) => [if b then 1 else 0]
    case Shared(_, id) => if useDict then [id] else []
    case _ => []
  }

  /** What a cell puts in the text sections. */
  function TextOf(c: Cell, useDict: bool): seq<Bytes> {
    match c
    case Shared(text, _) => if useDict then [] else [text]
    case Str(text) => [text]
    case DtIso(text) => [text]
    case DurIso(text) => [text]
    case _ => []
  }

  function Tags(cells: seq<Cell>): (r: Bytes)
    ensures |r| == |cells| && forall k :: 0 <= k < |cells| ==> r[k] == Tag(cells[k])
  {
    seq(|cells|, k requires 0 <= k < |cells| => Tag(cells[k]))
  }

  function Fixed(cells: seq<Cell>, useDict: bool): seq<U64> {
    if cells == [] then [] else Fixed(cells[..|cells| - 1], useDict) + FixedOf(cells[|cells| - 1], useDict)
  }

  function Texts(cells: seq<Cell>, useDict: bool): seq<Bytes> {
    if cells == [] then [] else Texts(cells[..|cells| - 1], useDict) + TextOf(cells[|cells| - 1], useDict)
  }

  function Numbers(values: seq<nat>, size: nat): (r: Bytes)
    ensures |r| == size * |values|
  {
    if values == [] then [] else Numbers(values[..|values| - 1], size) + Le(values[|values| - 1], size)
  }

  function Lengths(texts: seq<Bytes>): (r: seq<nat>)
    ensures |r| == |texts| && forall k :: 0 <= k < |texts| ==> r[k] == |texts[k]|
  {
    seq(|texts|, k requires 0 <= k < |texts| => |texts[k]|)
  }

  function Joined(texts: seq<Bytes>): Bytes {
    if texts == [] then [] else Joined(texts[..|texts| - 1]) + texts[|texts| - 1]
  }

  lemma JoinedMore(entries: seq<Bytes>, text: Bytes)
    ensures Joined(entries + [text]) == Joined(entries) + text
  {
    assert (entries + [text])[..|entries|] == entries;
  }

  /** One section: its count, and its contents. */
  function Section(count: nat, contents: Bytes): Bytes {
    Le(count, 4) + contents
  }

  /** The buffer a batch is packed into. */
  function Packed(b: Batch, useDict: bool): Bytes {
    var fixed, texts := Fixed(b.cells, useDict), Texts(b.cells, useDict);
    Le(b.firstRow, 4) + Le(b.width, 4) + Le(b.Rows(), 4) +
    Section(|b.cells|, Tags(b.cells)) +
    Section(|fixed|, Numbers(fixed, 8)) +
    Section(|texts|, Numbers(Lengths(texts), 4)) +
    Section(|Joined(texts)|, Joined(texts))
  }

  // ---- sections grow cell by cell ----

  lemma {:induction false} FixedPrefix(cells: seq<Cell>, useDict: bool, j: nat)
    requires j < |cells|
    ensures Fixed(cells[..j], useDict) + FixedOf(cells[j], useDict) <= Fixed(cells, useDict)
    decreases |cells|
  {
    var n := |cells| - 1;
    assert Fixed(cells, useDict) == Fixed(cells[..n], useDict) + FixedOf(cells[n], useDict);
    hide FixedOf, Fixed;
    if j == n {
    } else {
      assert cells[..n][..j] == cells[..j] && cells[..n][j] == cells[j];
      FixedPrefix(cells[..n], useDict, j);
    }
  }

  lemma {:induction false} TextsPrefix(cells: seq<Cell>, useDict: bool, j: nat)
    requires j < |cells|
    ensures Texts(cells[..j], useDict) + TextOf(cells[j], useDict) <= Texts(cells, useDict)
    decreases |cells|
  {
    var n := |cells| - 1;
    assert Texts(cells, useDict) == Texts(cells[..n], useDict) + TextOf(cells[n], useDict);
    hide TextOf, Texts;
    if j == n {
    } else {
      assert cells[..n][..j] == cells[..j] && cells[..n][j] == cells[j];
      TextsPrefix(cells[..n], useDict, j);
    }
  }

  lemma {:induction false} JoinedPrefix(texts: seq<Bytes>, j: nat)
    requires j < |texts|
    ensures Joined(texts[..j]) + texts[j] <= Joined(texts)
    decreases |texts|
  {
    var n := |texts| - 1;
    if j == n {
    } else {
      assert texts[..n][..j] == texts[..j] && texts[..n][j] == texts[j];
      JoinedPrefix(texts[..n], j);
    }
  }

  lemma {:induction false} NumbersPrefix(values: seq<nat>, size: nat, i: nat)
    requires i < |values|
    ensures Numbers(values[..i], size) + Le(values[i], size) <= Numbers(values, size)
    decreases |values|
  {
    hide Le;
    var n := |values| - 1;
    if i == n {
    } else {
      assert values[..n][..i] == values[..i] && values[..n][i] == values[i];
      NumbersPrefix(values[..n], size, i);
    }
  }

  /** The numbers of a section are at multiples of their size. */
  lemma NumberAt(values: seq<nat>, size: nat, i: nat)
    requires i < |values|
    ensures size * i + size <= |Numbers(values, size)|
    ensures Numbers(values, size)[size * i..size * i + size] == Le(values[i], size)
  {
    hide Le, Numbers;
    NumbersPrefix(values, size, i);
    var before := Numbers(values[..i], size);
    assert |before| == size * i;
    assert (before + Le(values[i], size))[|before|..] == Le(values[i], size);
  }
}
