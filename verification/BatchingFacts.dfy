/** What queueing, merging, sorting and sending do to rows. */
module BatchingFacts {
  import opened Sequences
  import opened Contract
  import opened StringTables
  import opened Batching

  ghost predicate HasIndex(rows: seq<Row>, index: nat) {
    exists k :: 0 <= k < |rows| && rows[k].index == index
  }

  // ---- merging ----------------------------------------------------------------

  /** A merge never blanks a populated cell, and later values win. */
  lemma {:induction false} MergeShows(into: seq<CellData>, from: seq<CellData>, col: nat)
    ensures CellAt(Merge(into, from), col) ==
            if CellAt(from, col).Some? then CellAt(from, col) else CellAt(into, col)
  {
  }

  // ---- queueing ---------------------------------------------------------------

  lemma EnqueueIndices(rows: seq<Row>, row: Row)
    ensures forall i: nat :: HasIndex(Enqueue(rows, row), i) <==> HasIndex(rows, i) || i == row.index
  {
    var q := Enqueue(rows, row);
    if |q| == |rows| + 1 {
      forall i: nat
        ensures HasIndex(q, i) <==> HasIndex(rows, i) || i == row.index
      {
        if HasIndex(rows, i) {
          var k :| 0 <= k < |rows| && rows[k].index == i;
          assert q[k].index == i;
        }
        if i == row.index {
          assert q[|rows|].index == i;
        }
      }
    } else {
      var k := FindRow(rows, row.index).value;
      forall i: nat
        ensures HasIndex(q, i) <==> HasIndex(rows, i) || i == row.index
      {
        if HasIndex(rows, i) {
          var j :| 0 <= j < |rows| && rows[j].index == i;
          assert q[j].index == i;
        }
        if i == row.index {
          assert q[k].index == i;
        }
      }
    }
  }

  /** One push keeps the queued indices distinct exactly when it is not blind. */
  lemma {:induction false} EnqueueDistinct(rows: seq<Row>, row: Row)
    ensures Distinct(Enqueue(rows, row)) <==> Distinct(rows) && !BlindAppend(rows, row.index)
  {
    var q := Enqueue(rows, row);
    if |q| == |rows| + 1 {
      if Distinct(q) {
        forall i, j | 0 <= i < j < |rows|
          ensures rows[i].index != rows[j].index
        {
          assert q[i].index != q[j].index;
        }
        forall k | 0 <= k < |rows|
          ensures rows[k].index != row.index
        {
          assert q[k].index != q[|rows|].index;
        }
      }
    } else {
      assert forall i :: 0 <= i < |rows| ==> q[i].index == rows[i].index;
    }
  }

  lemma {:induction false} ShownUpdate(rows: seq<Row>, k: nat, row: Row, col: nat)
    requires k < |rows| && rows[k].index == row.index && Distinct(rows)
    ensures forall r: nat :: Shown(rows[k := row], r, col) ==
                             if r == row.index then CellAt(row.values, col) else Shown(rows, r, col)
  {
    var q := rows[k := row];
    assert Distinct(q) by {
      assert forall i :: 0 <= i < |rows| ==> q[i].index == rows[i].index;
    }
    forall r: nat
      ensures Shown(q, r, col) ==
              if r == row.index then CellAt(row.values, col) else Shown(rows, r, col)
    {
      if r == row.index {
        ShownOnly(q, k, col);
      } else {
        ShownElsewhere(rows, k, row, r, col);
      }
    }
  }

  lemma ShownElsewhere(rows: seq<Row>, k: nat, row: Row, r: nat, col: nat)
    requires k < |rows| && rows[k].index == row.index && r != row.index
    ensures Shown(rows[k := row], r, col) == Shown(rows, r, col)
  {
    var n := |rows| - 1;
    if k == n {
      assert rows[k := row][..n] == rows[..n];
    } else {
      assert rows[k := row][..n] == rows[..n][k := row];
      ShownElsewhere(rows[..n], k, row, r, col);
    }
  }

  /** Queueing a row shows its cells, over what its row showed before. */
  lemma {:induction false} EnqueueShows(rows: seq<Row>, row: Row, r: nat, col: nat)
    requires Distinct(rows) && !BlindAppend(rows, row.index)
    ensures Shown(Enqueue(rows, row), r, col) ==
            if r == row.index && CellAt(row.values, col).Some? then CellAt(row.values, col)
            else Shown(rows, r, col)
  {
    var found := FindRow(rows, row.index);
    if rows == [] || row.index > rows[|rows| - 1].index || found.None? {
      assert (rows + [row])[..|rows|] == rows;
    } else {
      var merged := Row(row.index, Merge(rows[found.value].values, row.values));
      ShownUpdate(rows, found.value, merged, col);
      ShownOnly(rows, found.value, col);
      MergeShows(rows[found.value].values, row.values, col);
    }
  }

  // ---- sorting ----------------------------------------------------------------

  lemma {:induction false} InsertMembers(rows: seq<Row>, row: Row, tie: (Row, Row) -> bool)
    ensures multiset(Insert(rows, row, tie)) == multiset(rows) + multiset{row}
  {
    if rows == [] {
    } else {
      var last := rows[|rows| - 1];
      assert rows == rows[..|rows| - 1] + [last];
      InsertMembers(rows[..|rows| - 1], row, tie);
    }
  }

  lemma AppendSorted(rows: seq<Row>, last: Row)
    requires NonDescending(rows) && forall k :: 0 <= k < |rows| ==> rows[k].index <= last.index
    ensures NonDescending(rows + [last])
  {
  }

  lemma {:induction false} InsertSorted(rows: seq<Row>, row: Row, tie: (Row, Row) -> bool)
    requires NonDescending(rows)
    ensures NonDescending(Insert(rows, row, tie))
  {
    if rows == [] {
    } else {
      var last := rows[|rows| - 1];
      var prefix := rows[..|rows| - 1];
      assert NonDescending(prefix) && forall k :: 0 <= k < |prefix| ==> prefix[k].index <= last.index;
      if last.index < row.index || (last.index == row.index && tie(row, last)) {
        assert forall k :: 0 <= k < |rows| ==> rows[k].index <= last.index;
        AppendSorted(rows, row);
      } else {
        InsertSorted(prefix, row, tie);
        InsertMembers(prefix, row, tie);
        var s := Insert(prefix, row, tie);
        hide NonDescending;
        forall k | 0 <= k < |s|
          ensures s[k].index <= last.index
        {
          assert s[k] in multiset(s);
          assert s[k] == row || s[k] in prefix;
        }
        AppendSorted(s, last);
      }
    }
  }

  /** Sorting keeps the rows and puts them in order. */
  lemma {:induction false} SortSorts(rows: seq<Row>, tie: (Row, Row) -> bool)
    ensures NonDescending(SortRows(rows, tie))
    ensures multiset(SortRows(rows, tie)) == multiset(rows)
  {
    if rows == [] {
    } else {
      var prefix, last := rows[..|rows| - 1], rows[|rows| - 1];
      assert rows == prefix + [last];
      SortSorts(prefix, tie);
      InsertSorted(SortRows(prefix, tie), last, tie);
      InsertMembers(SortRows(prefix, tie), last, tie);
    }
  }

  lemma SameIndices(a: seq<Row>, b: seq<Row>)
    requires multiset(a) == multiset(b)
    ensures forall i: nat :: HasIndex(a, i) <==> HasIndex(b, i)
    ensures AllTidy(a) <==> AllTidy(b)
  {
    forall i: nat
      ensures HasIndex(a, i) <==> HasIndex(b, i)
    {
      if HasIndex(a, i) { HasIndexIn(a, b, i); }
      if HasIndex(b, i) { HasIndexIn(b, a, i); }
    }
    assert forall k :: 0 <= k < |a| ==> a[k] in multiset(b);
    assert forall k :: 0 <= k < |b| ==> b[k] in multiset(a);
    assert forall k :: 0 <= k < |a| ==> a[k] in b;
    assert forall k :: 0 <= k < |b| ==> b[k] in a;
  }

  lemma HasIndexIn(a: seq<Row>, b: seq<Row>, i: nat)
    requires multiset(a) == multiset(b) && HasIndex(a, i)
    ensures HasIndex(b, i)
  {
    var k :| 0 <= k < |a| && a[k].index == i;
    assert a[k] in multiset(b);
    assert a[k] in b;
  }

  lemma DistinctAppend(rows: seq<Row>, row: Row)
    ensures Distinct(rows + [row]) <==> Distinct(rows) && !HasIndex(rows, row.index)
  {
    var q := rows + [row];
    if Distinct(q) {
      forall i, j | 0 <= i < j < |rows|
        ensures rows[i].index != rows[j].index
      {
        assert q[i].index != q[j].index;
      }
      forall k | 0 <= k < |rows|
        ensures rows[k].index != row.index
      {
        assert q[k].index != q[|rows|].index;
      }
    }
  }

  lemma {:induction false} InsertDistinct(rows: seq<Row>, row: Row, tie: (Row, Row) -> bool)
    ensures Distinct(Insert(rows, row, tie)) <==> Distinct(rows) && !HasIndex(rows, row.index)
  {
    if rows != [] {
      var prefix, last := rows[..|rows| - 1], rows[|rows| - 1];
      DistinctAppend(rows, row);
      assert rows == prefix + [last];
      DistinctAppend(prefix, last);
      if !(last.index < row.index || (last.index == row.index && tie(row, last))) {
        InsertDistinct(prefix, row, tie);
        InsertMembers(prefix, row, tie);
        SameIndices(Insert(prefix, row, tie), prefix + [row]);
        DistinctAppend(Insert(prefix, row, tie), last);
        IndexAppend(prefix, row);
        IndexAppend(prefix, last);
      }
    } else {
      DistinctAppend(rows, row);
    }
  }

  lemma IndexAppend(rows: seq<Row>, row: Row)
    ensures forall i: nat :: HasIndex(rows + [row], i) <==> HasIndex(rows, i) || i == row.index
  {
    forall i: nat
      ensures HasIndex(rows + [row], i) <==> HasIndex(rows, i) || i == row.index
    {
      var q := rows + [row];
      if HasIndex(rows, i) {
        var k :| 0 <= k < |rows| && rows[k].index == i;
        assert q[k].index == i;
      }
      if i == row.index {
        assert q[|rows|].index == i;
      }
    }
  }

  lemma {:induction false} SortDistinct(rows: seq<Row>, tie: (Row, Row) -> bool)
    ensures Distinct(SortRows(rows, tie)) <==> Distinct(rows)
  {
    if rows == [] {
    } else {
      var prefix, last := rows[..|rows| - 1], rows[|rows| - 1];
      var sorted := SortRows(prefix, tie);
      assert SortRows(rows, tie) == Insert(sorted, last, tie);
      assert rows == prefix + [last];
      hide SortRows, Insert, Distinct, HasIndex, NonDescending;
      SortDistinct(prefix, tie);
      SortSorts(prefix, tie);
      SameIndices(sorted, prefix);
      InsertDistinct(sorted, last, tie);
      DistinctAppend(prefix, last);
    }
  }

  lemma {:induction false} InsertShows(rows: seq<Row>, row: Row, tie: (Row, Row) -> bool, r: nat, col: nat)
    requires !HasIndex(rows, row.index)
    ensures Shown(Insert(rows, row, tie), r, col) == Shown(rows + [row], r, col)
  {
    if rows == [] {
    } else {
      var prefix, last := rows[..|rows| - 1], rows[|rows| - 1];
      assert (rows + [row])[..|rows|] == rows;
      assert last.index != row.index;
      if !(last.index < row.index || (last.index == row.index && tie(row, last))) {
        assert forall k :: 0 <= k < |prefix| ==> prefix[k] == rows[k];
        InsertShows(prefix, row, tie, r, col);
        assert (prefix + [row])[..|prefix|] == prefix;
        var s := Insert(prefix, row, tie) + [last];
        assert s[..|s| - 1] == Insert(prefix, row, tie);
        if r == row.index {
          ShownAbsent(prefix, r, col);
        }
      }
    }
  }

  /** Sorting rows of distinct indices changes nothing a client shows. */
  lemma {:induction false} SortShows(rows: seq<Row>, tie: (Row, Row) -> bool, r: nat, col: nat)
    requires Distinct(rows)
    ensures Shown(SortRows(rows, tie), r, col) == Shown(rows, r, col)
  {
    if rows == [] {
    } else {
      var prefix, last := rows[..|rows| - 1], rows[|rows| - 1];
      assert rows == prefix + [last];
      DistinctAppend(prefix, last);
      SortShows(prefix, tie, r, col);
      SortSorts(prefix, tie);
      SameIndices(SortRows(prefix, tie), prefix);
      InsertShows(SortRows(prefix, tie), last, tie, r, col);
      ShownAppend(SortRows(prefix, tie), [last], r, col);
    }
  }

  // ---- sending ----------------------------------------------------------------

  /** Rows at consecutive indices. */
  ghost predicate Consecutive(run: seq<Row>) {
    forall k :: 0 < k < |run| ==> run[k].index == run[k - 1].index + 1
  }

  /** What `events` say to a client: rows and gaps, and table entries. */
  ghost predicate Says(events: seq<Event>, items: seq<Item>, rows: seq<Row>, entries: seq<Bytes>) {
    && Items(events) == items
    && Sent(events) == rows
    && Dictionary(events) == entries
  }

  lemma SaysOne(e: Event)
    ensures Says([e], EventItems(e), EventRows(e), EventEntries(e))
  {
    FlatMapOne(EventItems, e);
    FlatMapOne(EventRows, e);
    FlatMapOne(EventEntries, e);
  }

  lemma SaysAppend(a: seq<Event>, b: seq<Event>)
    ensures Says(a + b, Items(a) + Items(b), Sent(a) + Sent(b), Dictionary(a) + Dictionary(b))
  {
    FlatMapAppend(EventItems, a, b);
    FlatMapAppend(EventRows, a, b);
    FlatMapAppend(EventEntries, a, b);
  }

  lemma CarriedSays(cfg: Config, run: seq<Row>)
    ensures Says(Carried(cfg, run), RowItems(run), run, [])
  {
    if cfg.single {
      OneByOne(cfg, run);
    } else {
      SaysOne(Rows(run));
    }
  }

  lemma {:induction false} OneByOne(cfg: Config, run: seq<Row>)
    requires cfg.single
    ensures Says(Carried(cfg, run), RowItems(run), run, [])
  {
    if run == [] {
    } else {
      var n := |run| - 1;
      OneByOne(cfg, run[..n]);
      assert Carried(cfg, run) == Carried(cfg, run[..n]) + [OneRow(run[n])];
      SaysAppend(Carried(cfg, run[..n]), [OneRow(run[n])]);
      SaysOne(OneRow(run[n]));
      assert RowItems(run) == RowItems(run[..n]) + [RowItem(run[n])];
      assert run == run[..n] + [run[n]];
    }
  }

  lemma NoGapWithin(run: seq<Row>, next: Option<nat>)
    requires |run| > 1 && Consecutive(run)
    ensures GapBefore(run[|run| - 1].index, NextAfter(run[..|run| - 1], next)) == []
    ensures Consecutive(run[..|run| - 1])
  {
    assert run[|run| - 1].index == run[|run| - 2].index + 1;
  }

  lemma RowItemsLast(run: seq<Row>)
    requires run != []
    ensures RowItems(run) == RowItems(run[..|run| - 1]) + [RowItem(run[|run| - 1])]
  {
  }

  lemma {:induction false} ItemizeRun(run: seq<Row>, next: Option<nat>)
    requires run != [] && Consecutive(run)
    ensures Itemize(run, next) == GapBefore(run[0].index, next) + RowItems(run)
  {
    var n := |run| - 1;
    hide GapBefore, Consecutive, RowItems;
    RowItemsLast(run);
    if n == 0 {
      assert run[..n] == [];
      assert RowItems([]) == [];
    } else {
      NoGapWithin(run, next);
      ItemizeRun(run[..n], next);
      ItemizeLastRow(run, next);
    }
  }

  lemma ItemizeLastRow(run: seq<Row>, next: Option<nat>)
    requires run != [] && GapBefore(run[|run| - 1].index, NextAfter(run[..|run| - 1], next)) == []
    ensures Itemize(run, next) == Itemize(run[..|run| - 1], next) + [RowItem(run[|run| - 1])]
  {
  }

  lemma AnnouncedSays(row: nat, next: Option<nat>)
    ensures Says(Announced(row, next), GapBefore(row, next), [], [])
  {
    if next.Some? && row > next.value {
      SaysOne(RowGap(next.value, row - next.value));
    }
  }

  lemma {:induction false} SendRunSays(cfg: Config, run: seq<Row>, next: Option<nat>)
    requires Consecutive(run)
    ensures Says(SendRun(cfg, run, next), Itemize(run, next), run, [])
  {
    if run != [] {
      hide FlatMap, Itemize, GapBefore, Carried, Announced, Consecutive;
      AnnouncedSays(run[0].index, next);
      CarriedSays(cfg, run);
      SaysAppend(Announced(run[0].index, next), Carried(cfg, run));
      ItemizeRun(run, next);
    }
  }

  lemma {:induction false} RunThenRest(a: seq<Event>, b: seq<Event>, run: seq<Row>, rest: seq<Row>, next: Option<nat>)
    requires Says(a, Itemize(run, next), run, [])
    requires Says(b, Itemize(rest, NextAfter(run, next)), rest, [])
    ensures Says(a + b, Itemize(run + rest, next), run + rest, [])
  {
    SaysAppend(a, b);
    ItemizeAppend(run, rest, next);
  }

  /** However the rows of a flush split into runs, a client sees the rows and
      the gaps of the contract's rendering. */
  lemma {:induction false} FlushSays(cfg: Config, run: seq<Row>, rest: seq<Row>, next: Option<nat>)
    requires Consecutive(run)
    ensures Says(FlushFrom(cfg, run, rest, next), Itemize(run + rest, next), run + rest, [])
    decreases |rest|
  {
    hide Says, FlatMap, Itemize;
    if rest == [] {
      SendRunSays(cfg, run, next);
      assert run + rest == run;
    } else if run != [] && rest[0].index != run[|run| - 1].index + 1 {
      var later := FlushFrom(cfg, [rest[0]], rest[1..], NextAfter(run, next));
      SendRunSays(cfg, run, next);
      FlushSays(cfg, [rest[0]], rest[1..], NextAfter(run, next));
      assert [rest[0]] + rest[1..] == rest;
      RunThenRest(SendRun(cfg, run, next), later, run, rest, next);
    } else {
      FlushSays(cfg, run + [rest[0]], rest[1..], next);
      assert run + [rest[0]] + rest[1..] == run + rest;
    }
  }

  /** Chunks put exactly the pending entries on the wire, and no rows. */
  lemma {:induction false} ChunksSay(pending: seq<Bytes>, nextId: nat)
    requires |pending| <= nextId
    ensures Says(Chunks(pending, nextId), [], [], pending)
    decreases |pending|
  {
    if pending == [] {
    } else {
      ChunksFirst(pending, nextId);
      hide FlatMap, ChunkEnd, Chunks;
      var n := ChunkEnd(pending, 0, 0);
      var chunk := StringTable(nextId - |pending|, pending[..n]);
      ChunksSay(pending[n..], nextId);
      SaysOne(chunk);
      SaysAppend([chunk], Chunks(pending[n..], nextId));
    }
  }
}
