/** Which messages of a dictionary stream fit the frame limit
    (`src/service.rs`, `MAX_FRAME_BYTES` and `MAX_STRING_CHUNK_BYTES`). */
module FrameLimits {
  import opened Sequences
  import opened Contract
  import opened StringTables
  import opened Batching
  import opened BatchingFacts
  import opened BatcherInvariant
  import opened Walking
  import opened WalkInvariant
  import opened StreamTheorems
  import opened BatchBounds
  import opened DictionaryMode
  import opened DictionaryRefines

  /** Entries of no text at all, which the chunk's byte cap does not count. */
  function Empties(entries: seq<Bytes>): nat {
    Sum((s: Bytes) => if s == [] then 1 else 0, entries)
  }

  const MANY_EMPTIES := 10_000_000

  lemma {:induction false} EntriesCovered(entries: seq<Bytes>)
    ensures EntriesLen(entries) <= 3 * TextBytes(entries) + 2 * Empties(entries)
  {
    if entries == [] {
    } else {
      var n := |entries| - 1;
      EntriesCovered(entries[..n]);
      VarintLinear(|entries[n]|);
    }
  }

  lemma IdIsShort(firstId: nat)
    ensures IdLen(firstId) <= 6
  {
    VarintWidth(firstId % U32_LIMIT, 5);
  }

  /** The longest single entry whose message still fits. */
  function LongestEntry(firstId: nat): (n: nat)
    ensures 32 * 1024 * 1024 - 16 <= n
  {
    IdIsShort(firstId);
    MAX_FRAME_BYTES - 10 - IdLen(firstId)
  }

  lemma SingleFits(firstId: nat, text: Bytes)
    ensures MessageLen(StringTable(firstId, [text])) <= MAX_FRAME_BYTES <==> |text| <= LongestEntry(firstId)
  {
    SumOne((s: Bytes) => Delimited(|s|), text);
    IdIsShort(firstId);
    VarintWidth(|text|, 3);
    VarintWidth(|text|, 4);
    var inner := IdLen(firstId) + Delimited(|text|);
    VarintWidth(inner, 3);
    VarintWidth(inner, 4);
  }

  lemma SeveralFit(firstId: nat, entries: seq<Bytes>)
    requires TextBytes(entries) <= MAX_STRING_CHUNK_BYTES && Empties(entries) <= MANY_EMPTIES
    ensures MessageLen(StringTable(firstId, entries)) <= MAX_FRAME_BYTES
  {
    EntriesCovered(entries);
    IdIsShort(firstId);
    VarintWidth(IdLen(firstId) + EntriesLen(entries), 4);
  }

  // ---- which sheets' strings fit ----

  /** Every string table message among `events` fits the frame. */
  ghost predicate TablesFit(events: seq<Event>) {
    forall k :: 0 <= k < |events| && events[k].StringTable? ==> MessageLen(events[k]) <= MAX_FRAME_BYTES
  }

  /** Each entry is one that fits, alone, under its own id. */
  ghost predicate EntriesFit(first: nat, entries: seq<Bytes>) {
    forall i :: 0 <= i < |entries| ==> |entries[i]| <= LongestEntry(first + i)
  }

  lemma EntriesFitSplit(first: nat, a: seq<Bytes>, b: seq<Bytes>)
    ensures EntriesFit(first, a + b) <==> EntriesFit(first, a) && EntriesFit(first + |a|, b)
  {
    hide LongestEntry;
    if EntriesFit(first, a + b) {
      forall i | 0 <= i < |a|
        ensures |a[i]| <= LongestEntry(first + i)
      {
        assert a[i] == (a + b)[i];
      }
      forall i | 0 <= i < |b|
        ensures |b[i]| <= LongestEntry(first + |a| + i)
      {
        assert b[i] == (a + b)[|a| + i];
      }
    }
    if EntriesFit(first, a) && EntriesFit(first + |a|, b) {
      forall i | 0 <= i < |a + b|
        ensures |(a + b)[i]| <= LongestEntry(first + i)
      {
        if i >= |a| {
          assert (a + b)[i] == b[i - |a|];
        }
      }
    }
  }

  /** Of a dictionary stream's chunks, one of several entries fits the frame,
      and one of a single entry fits exactly when the entry is no longer than
      the frame less the few bytes around it: a chunk fits exactly when each of
      its entries would alone. */
  lemma {:induction false} ChunksFitExactly(before: seq<Event>, e: Event)
    requires e.StringTable? && EventDefined(before, e) && Empties(e.entries) <= MANY_EMPTIES
    ensures e.entries != []
    ensures MessageLen(e) <= MAX_FRAME_BYTES <==> |e.entries| > 1 || |e.entries[0]| <= LongestEntry(e.firstId)
    ensures MessageLen(e) <= MAX_FRAME_BYTES <==> EntriesFit(e.firstId, e.entries)
  {
    if |e.entries| == 1 {
      assert e.entries == [e.entries[0]];
      SingleFits(e.firstId, e.entries[0]);
    } else {
      SeveralFit(e.firstId, e.entries);
      forall i | 0 <= i < |e.entries|
        ensures |e.entries[i]| <= LongestEntry(e.firstId + i)
      {
        SumAtLeast((s: Bytes) => |s|, e.entries, i);
      }
    }
  }

  lemma {:induction false} TablesFitExactly(events: seq<Event>)
    requires AllDefined(events) && Empties(Dictionary(events)) <= MANY_EMPTIES
    ensures TablesFit(events) <==> EntriesFit(0, Dictionary(events))
  {
    if events == [] {
    } else {
      hide AllDefined, EntriesFit, TablesFit, EventDefined, Empties, FlatMap;
      var before, e := events[..|events| - 1], events[|events| - 1];
      assert events == before + [e];
      DefinedBefore(before, e);
      EntriesMore(before, e);
      TablesFitExactly(before);
      TablesFitMore(before, e);
      EntriesFitSplit(0, Dictionary(before), EventEntries(e));
      if e.StringTable? {
        ChunksFitExactly(before, e);
        NextChunk(before, e);
      } else {
        NoEntriesFit(|Dictionary(before)|);
      }
    }
  }

  lemma EntriesMore(before: seq<Event>, e: Event)
    ensures Dictionary(before + [e]) == Dictionary(before) + EventEntries(e)
    ensures Empties(Dictionary(before + [e])) == Empties(Dictionary(before)) + Empties(EventEntries(e))
  {
    SaysAppend(before, [e]);
    SaysOne(e);
    hide FlatMap, Sum;
    SumAppend((s: Bytes) => if s == [] then 1 else 0, Dictionary(before), EventEntries(e));
  }

  lemma DefinedBefore(before: seq<Event>, e: Event)
    requires AllDefined(before + [e])
    ensures AllDefined(before) && EventDefined(before, e)
  {
    var events := before + [e];
    forall k | 0 <= k < |before|
      ensures EventDefined(before[..k], before[k])
    {
      assert EventDefined(events[..k], events[k]) && before[..k] == events[..k];
    }
    assert EventDefined(events[..|before|], events[|before|]) && before == events[..|before|];
  }

  lemma NextChunk(before: seq<Event>, e: Event)
    requires e.StringTable? && EventDefined(before, e)
    ensures e.firstId == |Dictionary(before)|
  {
  }

  lemma NoEntriesFit(first: nat)
    ensures EntriesFit(first, [])
  {
  }

  lemma TablesFitMore(before: seq<Event>, e: Event)
    ensures TablesFit(before + [e]) <==>
            TablesFit(before) && (e.StringTable? ==> MessageLen(e) <= MAX_FRAME_BYTES)
  {
    hide MessageLen;
    var events := before + [e];
    assert forall k :: 0 <= k < |before| ==> events[k] == before[k];
    assert events[|before|] == e;
  }

  // ---- every entry is sent, once some cell is kept ----

  /** Nothing happens before the first kept cell. */
  lemma {:induction false} OpenedByKept(s: Setup, arrivals: seq<Arrival>)
    requires Walked(s, arrivals).status.Running?
    ensures var w := Walked(s, arrivals);
            && (w.open <==> Cells(s, arrivals) != [])
            && (!w.open ==> w.batcher.rows == [] && w.events == [Started])
  {
    if arrivals == [] {
    } else {
      var before, a := arrivals[..|arrivals| - 1], arrivals[|arrivals| - 1];
      assert before + [a] == arrivals;
      WalkedStep(s, before, a);
      OpenedByKept(s, before);
      CellsGrow(s, before, a);
      hide Push, Placed, Convert, Cells, Carries, Accepts;
    }
  }

  lemma LastPushSends(cfg: Config, b: Batcher, row: Row)
    requires ValidTable(b.table)
    ensures Pending(Flush(cfg, Push(cfg, b, row).0).0) == []
  {
    hide Push, Full, Lingered, SortRows, FlushFrom, Enqueue;
    PushEither(cfg, b, row);
    RowIsThere(b.rows, row);
  }

  lemma RowIsThere(rows: seq<Row>, row: Row)
    ensures Enqueue(rows, row) != []
  {
  }

  /** A completed stream's chunks are all of its entries, or there were none. */
  lemma {:induction false} AllEntriesSent(s: Setup, arrivals: seq<Arrival>)
    requires s.useTable && Stream(s, arrivals, false).status.Completed?
    ensures Dictionary(Stream(s, arrivals, false).events) == if Cells(s, arrivals) == [] then [] else Entries(arrivals)
  {
    CompletedRan(s, arrivals);
    RunEntries(s, arrivals);
    OpenedByKept(s, arrivals);
    var w := Walked(s, arrivals);
    hide Walked, WalkInv, Entries, Cells, FlatMap, Push, Flush, Pending;
    SaysOne(Started);
    if w.open {
      var row := Row(w.currentRow, w.values);
      PushEntries(s.cfg, w.batcher, w.events, row);
      var w' := Pushed(s.cfg, w, row);
      FlushEntries(s.cfg, w'.batcher, w'.events);
      LastPushSends(s.cfg, w.batcher, row);
    } else {
      FlushNothing(s.cfg, w.batcher);
    }
  }

  lemma {:induction false} EntriesSoFar(s: Setup, arrivals: seq<Arrival>)
    requires s.useTable
    ensures WalkEntries(Walked(s, arrivals)) <= Entries(arrivals)
  {
    if arrivals == [] {
      SaysOne(Started);
    } else {
      var before, a := arrivals[..|arrivals| - 1], arrivals[|arrivals| - 1];
      assert before + [a] == arrivals;
      WalkedStep(s, before, a);
      EntriesSoFar(s, before);
      if Walked(s, before).status.Running? {
        RunEntries(s, before);
        WalkedIds(s, before);
        ConvertedEntries(s, before, a);
        hide FlatMap, Take, Convert;
        TakeEntries(s.cfg, Ready(s, before, a), NextCell(s, before, a));
      }
    }
  }

  /** However a stream ends, its chunks are the first of its entries. */
  lemma SentEntries(s: Setup, arrivals: seq<Arrival>, readError: bool)
    requires s.useTable
    ensures Dictionary(Stream(s, arrivals, readError).events) <= Entries(arrivals)
  {
    RunInv(s, arrivals);
    EntriesSoFar(s, arrivals);
    var w := Walked(s, arrivals);
    hide Walked, RunOk, Entries, FlatMap, Push, Flush, Finish;
    SaysOne(ReadFailed);
    SaysAppend(w.events, [ReadFailed]);
    if !readError && w.status.Running? {
      RunOkInv(s, w);
      FinishInv(s.cfg, s.header, w);
      CompletedEntries(s, arrivals);
    }
  }

  lemma RunOkInv(s: Setup, w: Walk)
    requires RunOk(s, w) && w.status.Running?
    ensures WalkInv(s.header, w)
  {
  }

  lemma {:induction false} EmptiesOfPrefix(a: seq<Bytes>, b: seq<Bytes>)
    requires a <= b
    ensures Empties(a) <= Empties(b)
    ensures EntriesFit(0, b) ==> EntriesFit(0, a)
  {
    assert b == a + b[|a|..];
    SumAppend((s: Bytes) => if s == [] then 1 else 0, a, b[|a|..]);
    EntriesFitSplit(0, a, b[|a|..]);
  }

  /** Which sheets' strings fit the frame: no string table message passes it
      when each entry of the sheet is short enough for its id, and a completed
      stream that kept some cell has one that does otherwise. */
  lemma {:induction false} DictionaryFitsExactly(s: Setup, arrivals: seq<Arrival>, readError: bool)
    requires s.useTable && Empties(Entries(arrivals)) <= MANY_EMPTIES
    ensures EntriesFit(0, Entries(arrivals)) ==> TablesFit(Stream(s, arrivals, readError).events)
    ensures Stream(s, arrivals, readError).status.Completed? ==>
              (TablesFit(Stream(s, arrivals, readError).events) <==>
               Cells(s, arrivals) == [] || EntriesFit(0, Entries(arrivals)))
  {
    var stream := Stream(s, arrivals, readError);
    IdsDefinedFirst(s, arrivals, readError);
    SentEntries(s, arrivals, readError);
    EmptiesOfPrefix(Dictionary(stream.events), Entries(arrivals));
    TablesFitExactly(stream.events);
    if stream.status.Completed? {
      NeverOnError(s, arrivals, readError);
      hide Stream, Entries, AllDefined, TablesFit, EntriesFit, Empties, Cells;
      AllEntriesSent(s, arrivals);
      NoEntriesFit(0);
    }
  }

  lemma NeverOnError(s: Setup, arrivals: seq<Arrival>, readError: bool)
    requires Stream(s, arrivals, readError).status.Completed?
    ensures !readError
  {
    RunInv(s, arrivals);
  }

  // ---- a message past the limit ----

  function OneBorrow(token: nat, text: Bytes): seq<Arrival> {
    [Arrival(0, 0, Borrowed(token, text), None, None)]
  }

  /** The walk once it has taken the one cell. */
  lemma BorrowWalked(s: Setup, token: nat, text: Bytes)
    requires s.useTable && s.header.None?
    ensures var cell := CellData(SharedId(0), None, None);
            var table := Table(map[token := 0], [text], 1);
            Walked(s, OneBorrow(token, text)) ==
            Walk(true, 0, [cell], Batcher([], None, None, 0, Some(table)), [Started], Running)
  {
    assert OneBorrow(token, text)[..0] == [];
    assert Carries(CellData(SharedId(0), None, None));
    assert Placed([], 0, CellData(SharedId(0), None, None)) == [CellData(SharedId(0), None, None)];
    assert NEW_TABLE.pending + [text] == [text];
  }

  lemma BorrowFlushed(cfg: Config, row: Row, text: Bytes, table: Table)
    requires table.pending == [text] && table.nextId == 1
    ensures var e := Flush(cfg, Batcher([row], None, None, 1, Some(table))).1; e != [] && e[0] == StringTable(0, [text])
  {
    assert [text][..1] == [text];
    hide SortRows, FlushFrom;
  }

  /** One borrowed string past the limit, in a row estimated at 14 bytes: its
      chunk does not fit the frame, whatever the settings. */
  lemma {:induction false} LongBorrowPasses(s: Setup, token: nat, text: Bytes)
    requires s.useTable && s.header.None? && |text| > LongestEntry(0)
    ensures var stream := Stream(s, OneBorrow(token, text), false);
            && stream.status.Completed?
            && |stream.events| > 1 && stream.events[1] == StringTable(0, [text])
            && MessageLen(stream.events[1]) > MAX_FRAME_BYTES
    ensures NoneWider(s, OneBorrow(token, text), 14)
  {
    var table := Table(map[token := 0], [text], 1);
    var row := Row(0, [CellData(SharedId(0), None, None)]);
    BorrowWalked(s, token, text);
    SingleFits(0, text);
    BorrowFlushed(s.cfg, row, text, table);
    SumOne(ApproxCellBytes, row.values[0]);
    assert OneBorrow(token, text)[..0] == [];
    BorrowFinished(s.cfg, row, text, table);
  }

  lemma BorrowFinished(cfg: Config, row: Row, text: Bytes, table: Table)
    requires table.pending == [text] && table.nextId == 1
    ensures var b := Batcher([], None, None, 0, Some(table));
            var f := Finish(cfg, Walk(true, row.index, row.values, b, [Started], Running));
            f.status.Completed? && |f.events| > 1 && f.events[1] == StringTable(0, [text])
  {
    BorrowFlushed(cfg, row, text, table);
    var b := Batcher([], None, None, 0, Some(table));
    assert Enqueue([], row) == [row];
    hide Flush, Full, Lingered, Enqueue;
    FlushNothing(cfg, Push(cfg, b, row).0);
    assert Queued(b, row) == Batcher([row], None, None, 1, Some(table));
  }

  lemma FlushNothing(cfg: Config, b: Batcher)
    requires ValidTable(b.table)
    ensures b.rows == [] ==> Flush(cfg, b).1 == []
    ensures Flush(cfg, b).0.rows == []
  {
  }
}
