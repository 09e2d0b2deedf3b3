/** The shared-string dictionary of the packed encoding
    (`bench/src/bin/packed.rs`): built by the identity of each borrow while a
    sheet is walked. */
module PackedDicts {
  import opened Sequences
  import opened Packing

  /** What the table costs on the wire: a count, and each entry's length and
      text. */
  function Table(entries: seq<Bytes>): Bytes {
    Section(|entries|, Entries(entries))
  }

  function Entries(entries: seq<Bytes>): Bytes {
    if entries == [] then []
    else Entries(entries[..|entries| - 1]) + Section(|entries[|entries| - 1]|, entries[|entries| - 1])
  }

  lemma {:induction false} EntriesLength(entries: seq<Bytes>)
    ensures |Entries(entries)| == 4 * |entries| + |Joined(entries)|
  {
    if entries == [] {
    } else {
      EntriesLength(entries[..|entries| - 1]);
    }
  }

  /** Ids are dense from zero, one for each borrow met, and each entry is the
      text of the borrow that owns it. */
  ghost predicate Owned(index: map<nat, U32>, entries: seq<Bytes>, texts: nat -> Bytes) {
    && |entries| == |index|
    && (forall token :: token in index ==> index[token] < |entries| && entries[index[token]] == texts(token))
    && (forall s, t :: s in index && t in index && index[s] == index[t] ==> s == t)
  }

  lemma OneMoreOwned(index: map<nat, U32>, entries: seq<Bytes>, texts: nat -> Bytes, token: nat)
    requires Owned(index, entries, texts) && token !in index && |entries| < U32_END
    ensures Owned(index[token := |entries|], entries + [texts(token)], texts)
  {
  }

  /** `texts` is what lies behind each borrow: its pointer and length name its
      text for as long as the workbook is open. */
  class Dict {
    var index: map<nat, U32>
    var entries: seq<Bytes>
    var bytes: nat
    ghost const texts: nat -> Bytes

    ghost predicate Valid()
      reads this
    {
      bytes == |Joined(entries)| && Owned(index, entries, texts)
    }

    constructor (ghost texts: nat -> Bytes)
      ensures Valid() && entries == [] && this.texts == texts
    {
      index, entries, bytes := map[], [], 0;
      this.texts := texts;
    }

    /** The id of a borrow. Two borrows share an id exactly when they are the
        same borrow, whatever their texts, and no entry ever changes. */
    method Intern(token: nat, text: Bytes) returns (id: U32)
      requires Valid() && text == texts(token) && |entries| < U32_END
      modifies this
      ensures Valid() && id < |entries| && entries[id] == text
      ensures index == old(index)[token := id]
      ensures entries == old(entries) + if token in old(index) then [] else [text]
    {
      hide Joined;
      if token in index {
        assert index[token := index[token]] == index;
        return index[token];
      }
      JoinedMore(entries, text);
      OneMoreOwned(index, entries, texts, token);
      hide Owned;
      id := |entries|;
      index := index[token := id];
      entries := entries + [text];
      bytes := bytes + |text|;
    }

    /** The length of the encoded table: a count, a length for each entry, and
        the text. */
    method WireBytes() returns (n: nat)
      requires Valid()
      ensures n == |Table(entries)|
    {
      EntriesLength(entries);
      n := 4 + |entries| * 4 + bytes;
    }
  }

  /** How much of the plain encoding shared strings take. */
  function SharedBytes(cells: seq<Cell>): nat {
    if cells == [] then 0
    else
      var last := cells[|cells| - 1];
      SharedBytes(cells[..|cells| - 1]) + if last.Shared? then |last.text| else 0
  }

  function SharedCells(cells: seq<Cell>): nat {
    if cells == [] then 0
    else SharedCells(cells[..|cells| - 1]) + if cells[|cells| - 1].Shared? then 1 else 0
  }

  /** What a cell puts in each section, with a dictionary and without. */
  lemma OneCellSizes(c: Cell)
    ensures var shared, text := if c.Shared? then 1 else 0, if c.Shared? then |c.text| else 0;
            && |FixedOf(c, true)| == |FixedOf(c, false)| + shared
            && |TextOf(c, true)| + shared == |TextOf(c, false)|
            && TextSize(c, true) + text == TextSize(c, false)
  {
  }

  function TextSize(c: Cell, useDict: bool): nat {
    if TextOf(c, useDict) == [] then 0 else |TextOf(c, useDict)[0]|
  }

  lemma SizesGrow(cells: seq<Cell>, useDict: bool)
    requires cells != []
    ensures var before, c := cells[..|cells| - 1], cells[|cells| - 1];
            && |Fixed(cells, useDict)| == |Fixed(before, useDict)| + |FixedOf(c, useDict)|
            && |Texts(cells, useDict)| == |Texts(before, useDict)| + |TextOf(c, useDict)|
            && |Joined(Texts(cells, useDict))| == |Joined(Texts(before, useDict))| + TextSize(c, useDict)
  {
    JoinedGrows(cells, useDict);
    hide Joined, FixedOf, TextOf;
  }

  lemma {:induction false} SectionSizes(cells: seq<Cell>)
    ensures |Fixed(cells, true)| == |Fixed(cells, false)| + SharedCells(cells)
    ensures |Texts(cells, true)| + SharedCells(cells) == |Texts(cells, false)|
    ensures |Joined(Texts(cells, true))| + SharedBytes(cells) == |Joined(Texts(cells, false))|
  {
    if cells == [] {
    } else {
      var n := |cells| - 1;
      SizesGrow(cells, true);
      SizesGrow(cells, false);
      OneCellSizes(cells[n]);
      hide Joined, Fixed, Texts, FixedOf, TextOf, TextSize;
      SectionSizes(cells[..n]);
    }
  }

  lemma JoinedGrows(cells: seq<Cell>, useDict: bool)
    requires cells != []
    ensures var n := |cells| - 1;
            |Joined(Texts(cells, useDict))| == |Joined(Texts(cells[..n], useDict))| + TextSize(cells[n], useDict)
  {
    var n := |cells| - 1;
    var texts, put := Texts(cells[..n], useDict), TextOf(cells[n], useDict);
    assert |put| <= 1 && Texts(cells, useDict) == texts + put;
    hide Joined, TextOf, Texts;
    if put == [] {
      assert texts + put == texts;
    } else {
      assert put == [put[0]];
      JoinedMore(texts, put[0]);
    }
  }

  /** What the dictionary saves: every shared string gives up its text and its
      length and pays eight bytes for an id. */
  lemma {:induction false} DictionarySaves(b: Batch)
    ensures |Packed(b, true)| + SharedBytes(b.cells) == |Packed(b, false)| + 4 * SharedCells(b.cells)
  {
    hide Joined, Texts, Fixed, Numbers, Le;
    SectionSizes(b.cells);
  }
}
