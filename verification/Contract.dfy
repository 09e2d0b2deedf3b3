/** The stream contract: cells, rows and events as they go on the wire, and
    the client that reads them back (`src/gen/calamine/v1/calamine.v1.rs`). */
module Contract {
  import opened Sequences

  /** `cell_data::Value`. Floats and date-times are their 64-bit patterns. An
      unset oneof is not a value: the contract always sets one. */
  datatype Value =
    | Empty
    | Int(int)
    | Float(bits: nat)
    | Str(text: Bytes)
    | Shared(text: Bytes)
    | Bool(bool)
    | DateTime(bits: nat)
    | DateTimeIso(text: Bytes)
    | DurationIso(text: Bytes)
    | Error(code: nat)
    | SharedId(id: nat)

  datatype CellData = CellData(value: Value, formula: Option<Bytes>, styleId: Option<nat>)

  const EMPTY_CELL := CellData(Empty, None, None)

  /** A cell holds something when it has a formula or a value. */
  predicate Carries(cell: CellData) {
    cell.formula.Some? || !cell.value.Empty?
  }

  /** Row indices are u32 and the server computes the index after one, so the
      last u32 is left out. */
  type RowIndex = n: nat | n < 0xFFFF_FFFF

  datatype Row = Row(index: RowIndex, values: seq<CellData>)

  /** The events of one range stream, and how a stream may end early. */
  datatype Event =
    | Started
    | OneRow(row: Row)
    | Rows(rows: seq<Row>)
    | RowGap(first: nat, count: nat)
    | StringTable(firstId: nat, entries: seq<Bytes>)
    | Unsorted(atRow: nat, atCol: nat)
    | ReadFailed
    | Refused

  /** What the row events say, whichever carrier brought them. */
  datatype Item = RowItem(row: Row) | GapItem(first: nat, count: nat)

  function RowItems(rows: seq<Row>): (items: seq<Item>)
    ensures |items| == |rows|
    ensures forall k :: 0 <= k < |rows| ==> items[k] == RowItem(rows[k])
  {
    seq(|rows|, k requires 0 <= k < |rows| => RowItem(rows[k]))
  }

  function EventItems(e: Event): seq<Item> {
    match e
    case OneRow(row) => [RowItem(row)]
    case Rows(rows) => RowItems(rows)
    case RowGap(first, count) => [GapItem(first, count)]
    case _ => []
  }

  function EventRows(e: Event): seq<Row> {
    match e
    case OneRow(row) => [row]
    case Rows(rows) => rows
    case _ => []
  }

  function EventEntries(e: Event): seq<Bytes> {
    if e.StringTable? then e.entries else []
  }

  /** The rows and gaps a client sees, in order. */
  function Items(events: seq<Event>): seq<Item> {
    FlatMap(EventItems, events)
  }

  /** The rows a client sees, in order. */
  function Sent(events: seq<Event>): seq<Row> {
    FlatMap(EventRows, events)
  }

  /** The shared-string table a client has collected. */
  function Dictionary(events: seq<Event>): seq<Bytes> {
    FlatMap(EventEntries, events)
  }

  /** What a client holds at (`row`, `col`) after placing `rows` in order: a
      cell that carries something overwrites, a filler does not. */
  function Shown(rows: seq<Row>, row: nat, col: nat): Option<CellData> {
    if rows == [] then None
    else
      var last := rows[|rows| - 1];
      if last.index == row && CellAt(last.values, col).Some? then CellAt(last.values, col)
      else Shown(rows[..|rows| - 1], row, col)
  }

  function CellAt(values: seq<CellData>, col: nat): Option<CellData> {
    if col < |values| && Carries(values[col]) then Some(values[col]) else None
  }

  /** A row is tidy when it ends at its own last populated cell, and every
      cell in it that carries nothing is the plain filler. */
  predicate Tidy(values: seq<CellData>) {
    && values != []
    && Carries(values[|values| - 1])
    && forall c :: 0 <= c < |values| && !Carries(values[c]) ==> values[c] == EMPTY_CELL
  }

  predicate AllTidy(rows: seq<Row>) {
    forall k :: 0 <= k < |rows| ==> Tidy(rows[k].values)
  }

  predicate Ascending(rows: seq<Row>) {
    forall i, j :: 0 <= i < j < |rows| ==> rows[i].index < rows[j].index
  }

  predicate NonDescending(rows: seq<Row>) {
    forall i, j :: 0 <= i < j < |rows| ==> rows[i].index <= rows[j].index
  }

  predicate Distinct(rows: seq<Row>) {
    forall i, j :: 0 <= i < j < |rows| ==> rows[i].index != rows[j].index
  }

  /** The index after the last of `rows`, or `start` before there is one. */
  function NextAfter(rows: seq<Row>, start: Option<nat>): Option<nat> {
    if rows == [] then start else Some(rows[|rows| - 1].index + 1)
  }

  /** The one gap the contract allows before a row: all of the rows from the
      expected one up to it, and no gap when there are none. */
  function GapBefore(row: nat, next: Option<nat>): seq<Item> {
    if next.Some? && next.value < row then [GapItem(next.value, row - next.value)] else []
  }

  /** The contract's rendering of `rows` for a sheet that starts at `start`. */
  function Itemize(rows: seq<Row>, start: Option<nat>): seq<Item> {
    if rows == [] then []
    else
      var prefix := rows[..|rows| - 1];
      var last := rows[|rows| - 1];
      Itemize(prefix, start) + GapBefore(last.index, NextAfter(prefix, start)) + [RowItem(last)]
  }

  // ---- lookups -------------------------------------------------------------

  lemma ShownAppend(a: seq<Row>, b: seq<Row>, row: nat, col: nat)
    ensures Shown(a + b, row, col) ==
            if Shown(b, row, col).Some? then Shown(b, row, col) else Shown(a, row, col)
  {
    if b == [] {
      assert a + b == a;
    } else {
      assert (a + b)[..|a + b| - 1] == a + b[..|b| - 1];
      ShownAppend(a, b[..|b| - 1], row, col);
    }
  }

  lemma ShownAbsent(rows: seq<Row>, row: nat, col: nat)
    requires forall k :: 0 <= k < |rows| ==> rows[k].index != row
    ensures Shown(rows, row, col) == None
  {
    if rows == [] {
    } else {
      ShownAbsent(rows[..|rows| - 1], row, col);
    }
  }

  /** With one row per index, the client shows just that row. */
  lemma ShownOnly(rows: seq<Row>, k: nat, col: nat)
    requires k < |rows| && Distinct(rows)
    ensures Shown(rows, rows[k].index, col) == CellAt(rows[k].values, col)
  {
    var n := |rows| - 1;
    if k == n {
      ShownAbsent(rows[..n], rows[k].index, col);
    } else {
      ShownOnly(rows[..n], k, col);
    }
  }

  lemma ShownSome(rows: seq<Row>, row: nat, col: nat) returns (k: nat)
    requires Shown(rows, row, col).Some?
    ensures k < |rows| && rows[k].index == row && CellAt(rows[k].values, col) == Shown(rows, row, col)
  {
    k := |rows| - 1;
    if !(rows[k].index == row && CellAt(rows[k].values, col).Some?) {
      k := ShownSome(rows[..k], row, col);
    }
  }

  // ---- rows are determined by what they show --------------------------------

  ghost predicate SameGrid(a: seq<Row>, b: seq<Row>) {
    forall row: nat, col: nat :: Shown(a, row, col) == Shown(b, row, col)
  }

  lemma LastIsShown(rows: seq<Row>)
    requires rows != [] && Tidy(rows[|rows| - 1].values)
    ensures var r := rows[|rows| - 1];
            Shown(rows, r.index, |r.values| - 1) == Some(r.values[|r.values| - 1])
  {
  }

  lemma SameWidth(a: seq<CellData>, b: seq<CellData>)
    requires Tidy(a) && Tidy(b)
    requires forall col: nat :: CellAt(a, col) == CellAt(b, col)
    ensures a == b
  {
    assert CellAt(a, |a| - 1) == CellAt(b, |a| - 1);
    assert CellAt(a, |b| - 1) == CellAt(b, |b| - 1);
    forall c | 0 <= c < |a|
      ensures a[c] == b[c]
    {
      assert CellAt(a, c) == CellAt(b, c);
    }
  }

  /** Two streams of tidy rows in strictly ascending order that show a client
      the same cells are the same rows. */
  lemma {:induction false} RowsAreDetermined(a: seq<Row>, b: seq<Row>)
    requires AllTidy(a) && AllTidy(b) && Ascending(a) && Ascending(b) && SameGrid(a, b)
    ensures a == b
  {
    if a == [] || b == [] {
      if a != [] { LastIsShown(a); }
      if b != [] { LastIsShown(b); }
    } else {
      var x, y := a[|a| - 1], b[|b| - 1];
      var a', b' := a[..|a| - 1], b[..|b| - 1];
      LastIsShown(a);
      LastIsShown(b);
      if x.index > y.index {
        ShownAbsent(b, x.index, |x.values| - 1);
        assert false;
      }
      if y.index > x.index {
        ShownAbsent(a, y.index, |y.values| - 1);
        assert false;
      }
      forall col: nat
        ensures CellAt(x.values, col) == CellAt(y.values, col)
      {
        ShownOnly(a, |a| - 1, col);
        ShownOnly(b, |b| - 1, col);
        assert Shown(a, x.index, col) == Shown(b, x.index, col);
      }
      SameWidth(x.values, y.values);
      forall row: nat, col: nat
        ensures Shown(a', row, col) == Shown(b', row, col)
      {
        assert Shown(a, row, col) == Shown(b, row, col);
        if row == x.index {
          ShownAbsent(a', row, col);
          ShownAbsent(b', row, col);
        }
      }
      RowsAreDetermined(a', b');
      assert a == a' + [x] && b == b' + [y];
    }
  }

  // ---- what the contract's rendering guarantees ------------------------------

  /** Every gap of `items` from position `k` on: see `GapsExact`. */
  ghost predicate GapAt(items: seq<Item>, k: nat, start: Option<nat>)
    requires k < |items| && items[k].GapItem?
  {
    && items[k].count > 0
    && (if k == 0 then start == Some(items[k].first)
        else items[k - 1].RowItem? && items[k].first == items[k - 1].row.index + 1)
    && k + 1 < |items| && items[k + 1].RowItem?
    && items[k + 1].row.index == items[k].first + items[k].count
  }

  /** No gap is empty; each starts right after the row before it, or leads at
      the sheet's start; and each runs exactly up to the row that follows. */
  ghost predicate GapsExact(items: seq<Item>, start: Option<nat>) {
    forall k :: 0 <= k < |items| && items[k].GapItem? ==> GapAt(items, k, start)
  }

  lemma ItemizeMore(rows: seq<Row>, last: Row, start: Option<nat>)
    ensures Itemize(rows + [last], start) ==
            Itemize(rows, start) + GapBefore(last.index, NextAfter(rows, start)) + [RowItem(last)]
  {
    assert (rows + [last])[..|rows|] == rows;
  }

  lemma Regrouped<T>(a: seq<T>, b: seq<T>, c: seq<T>, d: seq<T>)
    ensures (a + b) + c + d == a + (b + c + d)
  {
  }

  lemma NextAfterAppend(a: seq<Row>, b: seq<Row>, start: Option<nat>)
    ensures NextAfter(a + b, start) == NextAfter(b, NextAfter(a, start))
  {
    if b == [] {
      assert a + b == a;
    }
  }

  lemma {:induction false} ItemizeAppend(a: seq<Row>, b: seq<Row>, start: Option<nat>)
    ensures Itemize(a + b, start) == Itemize(a, start) + Itemize(b, NextAfter(a, start))
  {
    if b == [] {
      assert a + b == a;
    } else {
      var b', last := b[..|b| - 1], b[|b| - 1];
      hide Itemize, GapBefore, NextAfter;
      assert b' + [last] == b && (a + b') + [last] == a + b;
      ItemizeMore(a + b', last, start);
      ItemizeMore(b', last, NextAfter(a, start));
      NextAfterAppend(a, b', start);
      ItemizeAppend(a, b', start);
      var next := NextAfter(a, start);
      Regrouped(Itemize(a, start), Itemize(b', next), GapBefore(last.index, NextAfter(b', next)), [RowItem(last)]);
    }
  }

  lemma ItemizeLast(rows: seq<Row>, start: Option<nat>)
    requires rows != []
    ensures Itemize(rows, start) != []
    ensures Itemize(rows, start)[|Itemize(rows, start)| - 1] == RowItem(rows[|rows| - 1])
  {
  }

  lemma {:induction false} ItemizeGaps(rows: seq<Row>, start: Option<nat>)
    ensures GapsExact(Itemize(rows, start), start)
  {
    if rows == [] {
    } else {
      var prefix := rows[..|rows| - 1];
      ItemizeGaps(prefix, start);
      if prefix != [] { ItemizeLast(prefix, start); }
      var before := Itemize(prefix, start);
      var items := Itemize(rows, start);
      forall k | 0 <= k < |items| && items[k].GapItem?
        ensures GapAt(items, k, start)
      {
        if k < |before| {
          assert before[k].GapItem? && GapAt(before, k, start);
        }
      }
    }
  }

  /** The rows a client counts as covered: every row item's, every gap's. */
  ghost predicate Covers(item: Item, row: nat) {
    match item
    case RowItem(r) => r.index == row
    case GapItem(first, count) => first <= row < first + count
  }

  /** With no row before an earlier one or before `start`, no gap covers a row
      that is sent anywhere in the stream, before it or after. */
  lemma {:induction false} GapsCoverNothingSent(rows: seq<Row>, start: Option<nat>, k: nat, j: nat)
    requires NonDescending(rows)
    requires start.Some? ==> forall i :: 0 <= i < |rows| ==> start.value <= rows[i].index
    requires k < |Itemize(rows, start)| && Itemize(rows, start)[k].GapItem?
    requires j < |rows|
    ensures !Covers(Itemize(rows, start)[k], rows[j].index)
  {
    var prefix := rows[..|rows| - 1];
    var before := Itemize(prefix, start);
    if k < |before| {
      if j < |prefix| {
        GapsCoverNothingSent(prefix, start, k, j);
      } else {
        ItemizeBelow(prefix, start, k);
      }
    }
  }

  lemma {:induction false} ItemizeBelow(rows: seq<Row>, start: Option<nat>, k: nat)
    requires NonDescending(rows) && k < |Itemize(rows, start)| && Itemize(rows, start)[k].GapItem?
    ensures rows != []
    ensures var g := Itemize(rows, start)[k]; g.first + g.count <= rows[|rows| - 1].index
  {
    var prefix := rows[..|rows| - 1];
    if k < |Itemize(prefix, start)| {
      ItemizeBelow(prefix, start, k);
    }
  }
}
