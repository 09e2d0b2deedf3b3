/** Packing a batch and reading it back (`bench/src/bin/packed.rs`): four
    sections written in one pass over the cells and read through four cursors
    that advance on their own. */
module PackedCodec {
  import opened Sequences
  import opened Arithmetic
  import opened Packing

  // ---- what a reader is told ----

  function CellNotes(cells: seq<Cell>): (r: seq<Note>)
    ensures |r| == |cells| && forall k :: 0 <= k < |cells| ==> r[k] == NoteOf(cells[k])
  {
    seq(|cells|, k requires 0 <= k < |cells| => NoteOf(cells[k]))
  }

  /** The first `rows` rows of a batch: each one's index, then its cells. */
  function RowNotes(b: Batch, rows: nat): seq<Note>
    requires rows * b.width <= |b.cells|
  {
    if rows == 0 then []
    else
      assert rows * b.width == (rows - 1) * b.width + b.width;
      RowNotes(b, rows - 1) + [RowNote(b.firstRow + rows - 1)] +
      CellNotes(b.cells[(rows - 1) * b.width..rows * b.width])
  }

  // ---- encoding ----

  /** `encode_packed`, writing each section as its loop does. */
  method EncodePacked(b: Batch, useDict: bool) returns (out: Bytes)
    ensures out == Packed(b, useDict)
  {
    hide Le, Numbers, Section;
    var tags, fixed, lens, text := ScanCells(b.cells, useDict);
    out := Le(b.firstRow, 4) + Le(b.width, 4) + Le(b.Rows(), 4) + Section(|tags|, tags);
    var numbers := PutNumbers(fixed, 8);
    out := out + Section(|fixed|, numbers);
    numbers := PutNumbers(lens, 4);
    out := out + Section(|lens|, numbers) + Section(|text|, text);
  }

  /** The one pass over the cells. */
  method ScanCells(cells: seq<Cell>, useDict: bool)
    returns (tags: Bytes, fixed: seq<U64>, lens: seq<nat>, text: Bytes)
    ensures tags == Tags(cells) && fixed == Fixed(cells, useDict)
    ensures lens == Lengths(Texts(cells, useDict)) && text == Joined(Texts(cells, useDict))
  {
    hide Tags, Fixed, Texts, Lengths, Joined, FixedOf, TextOf;
    tags, fixed, lens, text := [], [], [], [];
    NoCells(cells, useDict);
    for k := 0 to |cells|
      invariant tags == Tags(cells[..k]) && fixed == Fixed(cells[..k], useDict)
      invariant lens == Lengths(Texts(cells[..k], useDict)) && text == Joined(Texts(cells[..k], useDict))
    {
      OneMoreCell(cells, useDict, k);
      tags := tags + [Tag(cells[k])];
      fixed := fixed + FixedOf(cells[k], useDict);
      var put := TextOf(cells[k], useDict);
      if put != [] {
        lens := lens + [|put[0]|];
        text := text + put[0];
      }
    }
    assert cells[..|cells|] == cells;
  }

  lemma NoCells(cells: seq<Cell>, useDict: bool)
    ensures Tags(cells[..0]) == [] == Fixed(cells[..0], useDict)
    ensures Lengths(Texts(cells[..0], useDict)) == [] == Joined(Texts(cells[..0], useDict))
  {
  }

  lemma OneMoreCell(cells: seq<Cell>, useDict: bool, k: nat)
    requires k < |cells|
    ensures Tags(cells[..k + 1]) == Tags(cells[..k]) + [Tag(cells[k])]
    ensures Fixed(cells[..k + 1], useDict) == Fixed(cells[..k], useDict) + FixedOf(cells[k], useDict)
    ensures var texts, put := Texts(cells[..k], useDict), TextOf(cells[k], useDict);
            && Lengths(Texts(cells[..k + 1], useDict)) ==
               Lengths(texts) + (if put == [] then [] else [|put[0]|])
            && Joined(Texts(cells[..k + 1], useDict)) ==
               Joined(texts) + (if put == [] then [] else put[0])
  {
    assert cells[..k + 1][..k] == cells[..k];
    var texts, put := Texts(cells[..k], useDict), TextOf(cells[k], useDict);
    assert |put| <= 1 && Texts(cells[..k + 1], useDict) == texts + put;
    hide FixedOf, TextOf, Texts, Joined, Lengths, Tag;
    OneMoreText(texts, put);
  }

  lemma OneMoreText(texts: seq<Bytes>, put: seq<Bytes>)
    requires |put| <= 1
    ensures Lengths(texts + put) == Lengths(texts) + (if put == [] then [] else [|put[0]|])
    ensures Joined(texts + put) == Joined(texts) + (if put == [] then [] else put[0])
  {
    if put == [] {
      assert texts + put == texts;
    } else {
      assert put == [put[0]];
      JoinedMore(texts, put[0]);
    }
  }

  method PutNumbers(values: seq<nat>, size: nat) returns (out: Bytes)
    ensures out == Numbers(values, size)
  {
    hide Le;
    out := [];
    for k := 0 to |values|
      invariant out == Numbers(values[..k], size)
    {
      assert values[..k + 1][..k] == values[..k];
      out := out + Le(values[k], size);
    }
    assert values[..|values|] == values;
  }

  // ---- the layout ----

  /** Where the sections of a packed batch are. */
  datatype Layout = Layout(fixedAt: nat, lensAt: nat, textAt: nat)

  function LayoutOf(b: Batch, useDict: bool): Layout {
    var fixedAt := 20 + |b.cells|;
    var lensAt := fixedAt + 8 * |Fixed(b.cells, useDict)| + 4;
    Layout(fixedAt, lensAt, lensAt + 4 * |Texts(b.cells, useDict)| + 4)
  }

  predicate At(buf: Bytes, at: nat, piece: Bytes) {
    at + |piece| <= |buf| && buf[at..at + |piece|] == piece
  }

  lemma HeaderIsAt(b: Batch, useDict: bool)
    ensures var buf := Packed(b, useDict);
            && At(buf, 0, Le(b.firstRow, 4)) && At(buf, 4, Le(b.width, 4)) && At(buf, 8, Le(b.Rows(), 4))
            && At(buf, 12, Le(|b.cells|, 4)) && At(buf, 16, Tags(b.cells))
  {
    hide Le, Numbers, Fixed, Texts, Joined, At;
    var fixed, texts := Fixed(b.cells, useDict), Texts(b.cells, useDict);
    var joined := Joined(texts);
    var head := Le(b.firstRow, 4) + Le(b.width, 4) + Le(b.Rows(), 4) + Section(|b.cells|, Tags(b.cells));
    HeadPieces(Le(b.firstRow, 4), Le(b.width, 4), Le(b.Rows(), 4), Le(|b.cells|, 4), Tags(b.cells));
    var second := head + Section(|fixed|, Numbers(fixed, 8));
    var third := second + Section(|texts|, Numbers(Lengths(texts), 4));
    assert Packed(b, useDict) == third + Section(|joined|, joined);
    StaysAt(head, Section(|fixed|, Numbers(fixed, 8)));
    StaysAt(second, Section(|texts|, Numbers(Lengths(texts), 4)));
    StaysAt(third, Section(|joined|, joined));
  }

  lemma HeadPieces(a: Bytes, b: Bytes, c: Bytes, d: Bytes, e: Bytes)
    ensures var buf := a + b + c + (d + e);
            && At(buf, 0, a) && At(buf, |a|, b) && At(buf, |a| + |b|, c)
            && At(buf, |a| + |b| + |c|, d) && At(buf, |a| + |b| + |c| + |d|, e)
  {
    var buf := a + b + c + (d + e);
    assert buf[|a|..|a| + |b|] == b;
    assert buf[|a| + |b|..|a| + |b| + |c|] == c;
    assert buf[|a| + |b| + |c|..] == d + e;
  }

  /** What is somewhere in a buffer stays there when the buffer grows. */
  lemma StaysAt(buf: Bytes, more: Bytes)
    ensures forall at: nat, piece :: At(buf, at, piece) ==> At(buf + more, at, piece)
  {
    forall at: nat, piece | At(buf, at, piece)
      ensures At(buf + more, at, piece)
    {
      assert (buf + more)[at..at + |piece|] == buf[at..at + |piece|];
    }
  }

  lemma SectionsAreAt(b: Batch, useDict: bool)
    ensures var buf, l := Packed(b, useDict), LayoutOf(b, useDict);
            var fixed, texts := Fixed(b.cells, useDict), Texts(b.cells, useDict);
            && At(buf, l.fixedAt - 4, Le(|fixed|, 4)) && At(buf, l.fixedAt, Numbers(fixed, 8))
            && At(buf, l.lensAt - 4, Le(|texts|, 4)) && At(buf, l.lensAt, Numbers(Lengths(texts), 4))
            && At(buf, l.textAt - 4, Le(|Joined(texts)|, 4)) && At(buf, l.textAt, Joined(texts))
            && |buf| == l.textAt + |Joined(texts)|
  {
    hide Le, Numbers, Fixed, Texts, Joined;
    var fixed, texts := Fixed(b.cells, useDict), Texts(b.cells, useDict);
    var buf, l := Packed(b, useDict), LayoutOf(b, useDict);
    var head := Le(b.firstRow, 4) + Le(b.width, 4) + Le(b.Rows(), 4) + Section(|b.cells|, Tags(b.cells));
    var numbers, lens := Numbers(fixed, 8), Numbers(Lengths(texts), 4);
    var joined := Joined(texts);
    assert buf == head + Le(|fixed|, 4) + (numbers + Section(|texts|, lens) + Section(|joined|, joined));
    assert buf == (head + Le(|fixed|, 4)) + numbers + (Section(|texts|, lens) + Section(|joined|, joined));
    var second := head + Section(|fixed|, numbers);
    assert buf == second + Le(|texts|, 4) + (lens + Section(|joined|, joined));
    assert buf == (second + Le(|texts|, 4)) + lens + Section(|joined|, joined);
    var third := second + Section(|texts|, lens);
    assert buf == third + Le(|joined|, 4) + joined;
    assert buf == (third + Le(|joined|, 4)) + joined + [];
  }

  // ---- decoding ----

  /** A batch whose counts fit their 32-bit fields, rectangular, and whose
      shared strings the dictionary, if there is one, resolves. */
  ghost predicate Packable(b: Batch, dict: Option<seq<Bytes>>) {
    && b.width < U32_END && |b.cells| < U32_END
    && |b.cells| == b.Rows() * b.width
    && b.firstRow + b.Rows() <= U32_END
    && |Joined(Texts(b.cells, dict.Some?))| < U32_END
    && forall k :: 0 <= k < |b.cells| && b.cells[k].Shared? && dict.Some? ==>
                     b.cells[k].id < |dict.value| && dict.value[b.cells[k].id] == b.cells[k].text
  }

  /** Sections hold at most one element a cell. */
  lemma {:induction false} SectionsAreShort(cells: seq<Cell>, useDict: bool)
    ensures |Fixed(cells, useDict)| <= |cells| && |Texts(cells, useDict)| <= |cells|
  {
    if cells == [] {
    } else {
      var n := |cells| - 1;
      assert |FixedOf(cells[n], useDict)| <= 1 && |TextOf(cells[n], useDict)| <= 1;
      hide FixedOf, TextOf;
      SectionsAreShort(cells[..n], useDict);
    }
  }

  lemma {:induction false} TextFits(texts: seq<Bytes>, j: nat)
    requires j < |texts|
    ensures |texts[j]| <= |Joined(texts)|
  {
    JoinedPrefix(texts, j);
  }

  method GetNumber(buf: Bytes, at: nat, size: nat) returns (v: nat)
    requires at + size <= |buf|
    ensures v == FromLe(buf[at..at + size])
  {
    v := FromLe(buf[at..at + size]);
  }

  /** The sections are where the layout says, which is all that reading a cell
      needs to know about a buffer. */
  ghost predicate LaidOut(buf: Bytes, b: Batch, useDict: bool, l: Layout) {
    && At(buf, l.fixedAt, Numbers(Fixed(b.cells, useDict), 8))
    && At(buf, l.lensAt, Numbers(Lengths(Texts(b.cells, useDict)), 4))
    && At(buf, l.textAt, Joined(Texts(b.cells, useDict)))
  }

  lemma SliceOf(buf: Bytes, at: nat, piece: Bytes, k: nat, size: nat)
    requires At(buf, at, piece) && k + size <= |piece|
    ensures at + k + size <= |buf| && buf[at + k..at + k + size] == piece[k..k + size]
  {
    var got, part := buf[at + k..at + k + size], piece[k..k + size];
    forall i | 0 <= i < size
      ensures got[i] == part[i]
    {
      assert piece[k + i] == buf[at..at + |piece|][k + i] == buf[at + (k + i)];
    }
  }

  lemma FixedIsAt(buf: Bytes, b: Batch, useDict: bool, l: Layout, j: nat)
    requires LaidOut(buf, b, useDict, l) && j < |b.cells| && FixedOf(b.cells[j], useDict) != []
    ensures var at := l.fixedAt + 8 * |Fixed(b.cells[..j], useDict)|;
            at + 8 <= |buf| && FromLe(buf[at..at + 8]) == FixedOf(b.cells[j], useDict)[0]
  {
    hide Le, FromLe, Numbers, Fixed, FixedOf, At;
    var fixed, i := Fixed(b.cells, useDict), |Fixed(b.cells[..j], useDict)|;
    FixedPrefix(b.cells, useDict, j);
    assert fixed[i] == FixedOf(b.cells[j], useDict)[0];
    NumberAt(fixed, 8, i);
    var section := Numbers(fixed, 8);
    SliceOf(buf, l.fixedAt, section, 8 * i, 8);
    LeU64(fixed[i]);
  }

  lemma TextIsAt(buf: Bytes, b: Batch, useDict: bool, l: Layout, j: nat)
    requires LaidOut(buf, b, useDict, l) && j < |b.cells| && TextOf(b.cells[j], useDict) != []
    requires |Joined(Texts(b.cells, useDict))| < U32_END
    ensures var text := TextOf(b.cells[j], useDict)[0];
            var at := l.lensAt + 4 * |Texts(b.cells[..j], useDict)|;
            var off := l.textAt + |Joined(Texts(b.cells[..j], useDict))|;
            && at + 4 <= |buf| && FromLe(buf[at..at + 4]) == |text|
            && off + |text| <= |buf| && buf[off..off + |text|] == text
  {
    hide Le, FromLe, Numbers, Texts, TextOf, Joined, At;
    var texts, before := Texts(b.cells, useDict), Texts(b.cells[..j], useDict);
    var i := |before|;
    TextsPrefix(b.cells, useDict, j);
    assert texts[i] == TextOf(b.cells[j], useDict)[0] && texts[..i] == before;
    NumberAt(Lengths(texts), 4, i);
    var section := Numbers(Lengths(texts), 4);
    SliceOf(buf, l.lensAt, section, 4 * i, 4);
    TextFits(texts, i);
    LeU32(|texts[i]|);
    JoinedPrefix(texts, i);
    var joined, off := Joined(texts), |Joined(before)|;
    assert joined[off..off + |texts[i]|] == texts[i];
    SliceOf(buf, l.textAt, joined, off, |texts[i]|);
  }

  /** The three cursors, once `j` cells are read. */
  ghost predicate Read(b: Batch, useDict: bool, j: nat, fi: nat, ti: nat, toff: nat)
    requires j <= |b.cells|
  {
    && fi == |Fixed(b.cells[..j], useDict)|
    && ti == |Texts(b.cells[..j], useDict)|
    && toff == |Joined(Texts(b.cells[..j], useDict))|
  }

  lemma CursorsMove(b: Batch, useDict: bool, j: nat)
    requires j < |b.cells|
    ensures |Fixed(b.cells[..j + 1], useDict)| == |Fixed(b.cells[..j], useDict)| + |FixedOf(b.cells[j], useDict)|
    ensures var before, put := Texts(b.cells[..j], useDict), TextOf(b.cells[j], useDict);
            && |Texts(b.cells[..j + 1], useDict)| == |before| + |put|
            && |Joined(Texts(b.cells[..j + 1], useDict))| ==
               |Joined(before)| + (if put == [] then 0 else |put[0]|)
  {
    OneMoreCell(b.cells, useDict, j);
    var before, put := Texts(b.cells[..j], useDict), TextOf(b.cells[j], useDict);
    assert |Lengths(Texts(b.cells[..j + 1], useDict))| == |Texts(b.cells[..j + 1], useDict)|;
    assert |Lengths(before)| == |before|;
  }

  /** What a cell's tag says of its place in the sections and of its note. */
  lemma CellKind(c: Cell, useDict: bool)
    ensures var tag, fixed, texts := Tag(c), FixedOf(c, useDict), TextOf(c, useDict);
            if tag == T_EMPTY || tag == T_ERROR then
              fixed == [] && texts == [] && NoteOf(c) == CellNote(tag, [])
            else if tag == T_INT || tag == T_FLOAT || tag == T_DATETIME || tag == T_BOOL || (tag == T_SHARED && useDict)
            then
              && |fixed| == 1 && texts == []
              && (if tag == T_INT then NoteOf(c) == CellNote(tag, Le(AsU64(AsI64(fixed[0])), 8))
                  else if tag == T_BOOL then NoteOf(c) == CellNote(tag, [fixed[0] % 256])
                  else if tag == T_SHARED then
                    c.Shared? && c.id == fixed[0] % U32_END && NoteOf(c) == CellNote(tag, c.text)
                  else NoteOf(c) == CellNote(tag, Le(fixed[0], 8)))
            else fixed == [] && |texts| == 1 && NoteOf(c) == CellNote(tag, texts[0])
  {
    hide Le;
  }

  /** Read the next cell, by its tag, through whichever cursors it needs. */
  method DecodeCell(buf: Bytes, tag: byte, dict: Option<seq<Bytes>>, l: Layout, fi: nat, ti: nat, toff: nat,
                    ghost b: Batch, ghost j: nat)
    returns (note: Note, fi': nat, ti': nat, toff': nat)
    requires Packable(b, dict) && LaidOut(buf, b, dict.Some?, l) && j < |b.cells|
    requires tag == Tag(b.cells[j]) && Read(b, dict.Some?, j, fi, ti, toff)
    ensures note == NoteOf(b.cells[j])
    ensures Read(b, dict.Some?, j + 1, fi', ti', toff')
  {
    hide Fixed, Texts, Joined, Le, FromLe, Numbers, Lengths, LaidOut, FixedOf, TextOf, NoteOf, Tag, AsU64, AsI64;
    ghost var useDict := dict.Some?;
    CursorsMove(b, useDict, j);
    CellKind(b.cells[j], useDict);
    fi', ti', toff' := fi, ti, toff;
    if tag == T_EMPTY || tag == T_ERROR {
      note := CellNote(tag, []);
    } else if tag == T_INT || tag == T_FLOAT || tag == T_DATETIME || tag == T_BOOL ||
              (tag == T_SHARED && dict.Some?) {
      FixedIsAt(buf, b, useDict, l, j);
      var v := GetNumber(buf, l.fixedAt + fi * 8, 8);
      fi' := fi + 1;
      if tag == T_INT {
        note := CellNote(tag, Le(AsU64(AsI64(v)), 8));
      } else if tag == T_BOOL {
        note := CellNote(tag, [v % 256]);
      } else if tag == T_SHARED {
        note := CellNote(tag, dict.value[v % U32_END]);
      } else {
        note := CellNote(tag, Le(v, 8));
      }
    } else {
      TextIsAt(buf, b, useDict, l, j);
      var len := GetNumber(buf, l.lensAt + ti * 4, 4);
      ti' := ti + 1;
      note := CellNote(tag, buf[l.textAt + toff..l.textAt + toff + len]);
      toff' := toff + len;
    }
  }

  /** The cells of one row, whose first is cell `from`. */
  method DecodeRow(buf: Bytes, from: nat, width: nat, tags: Bytes, dict: Option<seq<Bytes>>, l: Layout,
                   fi: nat, ti: nat, toff: nat, ghost b: Batch)
    returns (notes: seq<Note>, fi': nat, ti': nat, toff': nat)
    requires Packable(b, dict) && LaidOut(buf, b, dict.Some?, l) && tags == Tags(b.cells)
    requires from + width <= |b.cells| && Read(b, dict.Some?, from, fi, ti, toff)
    ensures notes == CellNotes(b.cells[from..from + width])
    ensures Read(b, dict.Some?, from + width, fi', ti', toff')
  {
    hide Packable, Read, LaidOut, NoteOf, Tag;
    notes, fi', ti', toff' := [], fi, ti, toff;
    for c := 0 to width
      invariant notes == CellNotes(b.cells[from..from + c])
      invariant Read(b, dict.Some?, from + c, fi', ti', toff')
    {
      ghost var done := b.cells[from..from + c];
      assert b.cells[from..from + c + 1] == done + [b.cells[from + c]];
      var note;
      note, fi', ti', toff' := DecodeCell(buf, tags[from + c], dict, l, fi', ti', toff', b, from + c);
      notes := notes + [note];
    }
  }

  method DecodeRows(buf: Bytes, firstRow: nat, width: nat, rows: nat, tags: Bytes, dict: Option<seq<Bytes>>, l: Layout,
                    ghost b: Batch)
    returns (notes: seq<Note>, fi: nat, ti: nat, toff: nat)
    requires Packable(b, dict) && LaidOut(buf, b, dict.Some?, l)
    requires firstRow == b.firstRow && width == b.width && rows == b.Rows() && tags == Tags(b.cells)
    ensures notes == RowNotes(b, rows)
    ensures fi == |Fixed(b.cells, dict.Some?)| && ti == |Texts(b.cells, dict.Some?)|
    ensures toff == |Joined(Texts(b.cells, dict.Some?))|
  {
    hide Fixed, Texts, Joined, LaidOut, NoteOf, Tags;
    notes, fi, ti, toff := [], 0, 0, 0;
    NothingRead(b, dict.Some?);
    for r := 0 to rows
      invariant r * width <= |b.cells|
      invariant notes == RowNotes(b, r) && Read(b, dict.Some?, r * width, fi, ti, toff)
    {
      RowIsInside(b, r);
      Distributes(r, 1, width);
      var row;
      row, fi, ti, toff := DecodeRow(buf, r * width, width, tags, dict, l, fi, ti, toff, b);
      notes := notes + [RowNote(firstRow + r)] + row;
    }
    assert b.cells[..|b.cells|] == b.cells;
  }

  lemma NothingRead(b: Batch, useDict: bool)
    ensures Read(b, useDict, 0, 0, 0, 0)
  {
  }

  lemma RowIsInside(b: Batch, r: nat)
    requires |b.cells| == b.Rows() * b.width && r < b.Rows()
    ensures r * b.width + b.width <= |b.cells|
  {
    FewerRows(r + 1, b.Rows(), b.width);
    assert (r + 1) * b.width == r * b.width + b.width;
  }

  lemma FewerRows(some: nat, all: nat, width: nat)
    requires some <= all
    ensures some * width <= all * width
  {
    Distributes(some, all - some, width);
  }

  /** Every count in the buffer is read back. */
  lemma CountsReadBack(b: Batch, useDict: bool)
    requires b.firstRow < U32_END && b.width < U32_END && b.Rows() < U32_END && |b.cells| < U32_END
    requires |Joined(Texts(b.cells, useDict))| < U32_END
    ensures var buf, l := Packed(b, useDict), LayoutOf(b, useDict);
            && 20 + |b.cells| <= |buf| && buf[16..16 + |b.cells|] == Tags(b.cells)
            && FromLe(buf[0..4]) == b.firstRow && FromLe(buf[4..8]) == b.width && FromLe(buf[8..12]) == b.Rows()
            && FromLe(buf[12..16]) == |b.cells|
  {
    hide Packed, Fixed, Texts, Joined, Numbers, Le, FromLe, Tags;
    HeaderIsAt(b, useDict);
    SectionsAreAt(b, useDict);
    LeU32(b.firstRow);
    LeU32(b.width);
    LeU32(b.Rows());
    LeU32(|b.cells|);
  }

  lemma SectionCountsReadBack(b: Batch, useDict: bool)
    requires |b.cells| < U32_END && |Joined(Texts(b.cells, useDict))| < U32_END
    ensures var buf, l := Packed(b, useDict), LayoutOf(b, useDict);
            && LaidOut(buf, b, useDict, l)
            && |buf| == l.textAt + |Joined(Texts(b.cells, useDict))|
            && FromLe(buf[l.fixedAt - 4..l.fixedAt]) == |Fixed(b.cells, useDict)|
            && FromLe(buf[l.lensAt - 4..l.lensAt]) == |Texts(b.cells, useDict)|
            && FromLe(buf[l.textAt - 4..l.textAt]) == |Joined(Texts(b.cells, useDict))|
  {
    hide Packed, Fixed, Texts, Joined, Numbers, Le, FromLe;
    SectionsAreAt(b, useDict);
    SectionsAreShort(b.cells, useDict);
    LeU32(|Fixed(b.cells, useDict)|);
    LeU32(|Texts(b.cells, useDict)|);
    LeU32(|Joined(Texts(b.cells, useDict))|);
  }

  /** `decode_packed` of what `encode_packed` wrote: the same rows and cells in
      order, with a dictionary or without, and the four sections read to
      their ends and no further. */
  method DecodePacked(buf: Bytes, dict: Option<seq<Bytes>>, ghost b: Batch) returns (notes: seq<Note>)
    requires Packable(b, dict) && buf == Packed(b, dict.Some?)
    ensures notes == RowNotes(b, b.Rows())
  {
    hide Packed, Fixed, Texts, Joined, FromLe, Tags, RowNotes, LaidOut;
    RowsFit(b);
    CountsReadBack(b, dict.Some?);
    SectionCountsReadBack(b, dict.Some?);
    var firstRow := GetNumber(buf, 0, 4);
    var width := GetNumber(buf, 4, 4);
    var rows := GetNumber(buf, 8, 4);
    var nTags := GetNumber(buf, 12, 4);
    var at := 16;
    var tags := buf[at..at + nTags];
    at := at + nTags;
    var nFixed := GetNumber(buf, at, 4);
    var fixedAt := at + 4;
    at := fixedAt + nFixed * 8;
    var nText := GetNumber(buf, at, 4);
    var lensAt := at + 4;
    at := lensAt + nText * 4;
    var nBytes := GetNumber(buf, at, 4);
    var textAt := at + 4;
    var fi, ti, toff;
    notes, fi, ti, toff := DecodeRows(buf, firstRow, width, rows, tags, dict, Layout(fixedAt, lensAt, textAt), b);
    assert fi == nFixed && ti == nText && toff == nBytes && textAt + nBytes == |buf|;
  }

  lemma RowsFit(b: Batch)
    requires |b.cells| == b.Rows() * b.width && |b.cells| < U32_END
    ensures b.Rows() < U32_END
  {
    if b.width > 0 {
      NoFewer(b.Rows(), b.width);
    }
  }

  lemma NoFewer(rows: nat, width: nat)
    requires width > 0
    ensures rows <= rows * width
  {
  }
}
