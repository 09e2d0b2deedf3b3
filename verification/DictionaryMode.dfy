/** `use_string_table`: ids on the wire are always defined first, and resolving
    them gives the plain stream back. */
module DictionaryMode {
  import opened Sequences
  import opened Contract
  import opened StringTables
  import opened Batching
  import opened BatchingFacts
  import opened BatcherInvariant
  import opened Walking

  // ---- the contract's promise about ids ---------------------------------------------

  /** Every id in `values` is one of the first `known`. */
  ghost predicate IdsKnown(values: seq<CellData>, known: nat) {
    forall c :: 0 <= c < |values| && values[c].value.SharedId? ==> values[c].value.id < known
  }

  ghost predicate RowIdsKnown(rows: seq<Row>, known: nat) {
    forall k :: 0 <= k < |rows| ==> IdsKnown(rows[k].values, known)
  }

  /** One event after `before`: a chunk goes on where the table stands, is not
      empty, and fits the byte cap unless it is one entry; a row refers only to
      entries sent before it. */
  ghost predicate EventDefined(before: seq<Event>, e: Event) {
    var known := |Dictionary(before)|;
    match e
    case StringTable(firstId, entries) =>
      && firstId == known && entries != []
      && (TextBytes(entries) <= 4 * 1024 * 1024 || |entries| == 1)
    case OneRow(row) => IdsKnown(row.values, known)
    case Rows(rows) => RowIdsKnown(rows, known)
    case _ => true
  }

  ghost predicate AllDefined(events: seq<Event>) {
    forall k :: 0 <= k < |events| ==> EventDefined(events[..k], events[k])
  }

  lemma DefinedAppend(events: seq<Event>, e: Event)
    requires AllDefined(events) && EventDefined(events, e)
    ensures AllDefined(events + [e])
  {
    var all := events + [e];
    forall k | 0 <= k < |all|
      ensures EventDefined(all[..k], all[k])
    {
      assert all[..k] == events[..k];
      if k == |events| {
        assert events[..k] == events;
      }
    }
  }

  /** The first chunk goes on where the table stands, and fits. */
  lemma FirstChunkDefined(events: seq<Event>, pending: seq<Bytes>, nextId: nat)
    requires AllDefined(events) && |Dictionary(events)| + |pending| == nextId && pending != []
    ensures var n := ChunkEnd(pending, 0, 0);
            var chunk := StringTable(nextId - |pending|, pending[..n]);
            n > 0 && AllDefined(events + [chunk]) && Dictionary(events + [chunk]) == Dictionary(events) + pending[..n]
  {
    ChunkMoves(pending);
    assert pending[..0] == [];
    ChunkFits(pending, 0, 0);
    var chunk := StringTable(nextId - |pending|, pending[..ChunkEnd(pending, 0, 0)]);
    SaysOne(chunk);
    SaysAppend(events, [chunk]);
    hide AllDefined, FlatMap, ChunkEnd;
    DefinedAppend(events, chunk);
  }

  lemma {:induction false} ChunksDefined(events: seq<Event>, pending: seq<Bytes>, nextId: nat)
    requires AllDefined(events) && |Dictionary(events)| + |pending| == nextId
    ensures AllDefined(events + Chunks(pending, nextId))
    decreases |pending|
  {
    hide AllDefined, FlatMap, ChunkEnd;
    if pending == [] {
      assert events + [] == events;
    } else {
      FirstChunkDefined(events, pending, nextId);
      var n := ChunkEnd(pending, 0, 0);
      var chunk := StringTable(nextId - |pending|, pending[..n]);
      ChunksDefined(events + [chunk], pending[n..], nextId);
      assert (events + [chunk]) + Chunks(pending[n..], nextId) == events + Chunks(pending, nextId);
    }
  }

  ghost predicate NoChunks(events: seq<Event>) {
    forall k :: 0 <= k < |events| ==> !events[k].StringTable?
  }

  lemma {:induction false} FlushHasNoChunks(cfg: Config, run: seq<Row>, rest: seq<Row>, next: Option<nat>)
    ensures NoChunks(FlushFrom(cfg, run, rest, next))
    decreases |rest|
  {
    if rest == [] {
    } else {
      if run != [] && rest[0].index != run[|run| - 1].index + 1 {
        FlushHasNoChunks(cfg, [rest[0]], rest[1..], NextAfter(run, next));
      } else {
        FlushHasNoChunks(cfg, run + [rest[0]], rest[1..], next);
      }
    }
  }

  lemma RowIdsSplit(a: seq<Row>, b: seq<Row>, known: nat)
    requires RowIdsKnown(a + b, known)
    ensures RowIdsKnown(a, known) && RowIdsKnown(b, known)
  {
    assert forall k :: 0 <= k < |a| ==> a[k] == (a + b)[k];
    assert forall k :: 0 <= k < |b| ==> b[k] == (a + b)[|a| + k];
  }

  /** Row events whose rows use only the entries already sent. */
  lemma {:induction false} RowEventsDefined(events: seq<Event>, later: seq<Event>)
    requires AllDefined(events) && NoChunks(later)
    requires RowIdsKnown(Sent(later), |Dictionary(events)|)
    ensures AllDefined(events + later)
    ensures Dictionary(events + later) == Dictionary(events)
  {
    if later == [] {
      assert events + [] == events;
    } else {
      var n := |later| - 1;
      var e := later[n];
      assert later == later[..n] + [e];
      SaysOne(e);
      SaysAppend(later[..n], [e]);
      RowIdsSplit(Sent(later[..n]), EventRows(e), |Dictionary(events)|);
      RowEventsDefined(events, later[..n]);
      SaysAppend(events + later[..n], [e]);
      RowEventKnown(events + later[..n], e);
      DefinedAppend(events + later[..n], e);
      assert (events + later[..n]) + [e] == events + later;
      assert Dictionary(events) + [] == Dictionary(events);
    }
  }

  lemma RowEventKnown(before: seq<Event>, e: Event)
    requires !e.StringTable? && RowIdsKnown(EventRows(e), |Dictionary(before)|)
    ensures EventDefined(before, e)
  {
    if e.OneRow? {
      assert EventRows(e)[0] == e.row;
    }
  }

  // ---- what every step keeps ------------------------------------------------------------

  /** Ids are dense from zero: the entries sent and those pending are all of
      them, in id order, and every id handed out is one of them. */
  ghost predicate TableInv(table: Table, events: seq<Event>) {
    && |Dictionary(events)| + |table.pending| == table.nextId
    && (forall token :: token in table.index ==> table.index[token] < table.nextId)
    && (forall a, b :: a in table.index && b in table.index && table.index[a] == table.index[b] ==> a == b)
  }

  ghost predicate DictInv(b: Batcher, events: seq<Event>) {
    && b.table.Some?
    && TableInv(b.table.value, events)
    && RowIdsKnown(b.rows, b.table.value.nextId)
    && AllDefined(events)
  }

  lemma SortedIds(rows: seq<Row>, tie: (Row, Row) -> bool, known: nat)
    requires RowIdsKnown(rows, known)
    ensures RowIdsKnown(SortRows(rows, tie), known)
  {
    SortSorts(rows, tie);
    var sorted := SortRows(rows, tie);
    forall k | 0 <= k < |sorted|
      ensures IdsKnown(sorted[k].values, known)
    {
      assert sorted[k] in multiset(rows);
      assert sorted[k] in rows;
    }
  }

  lemma FlushDict(cfg: Config, b: Batcher, events: seq<Event>)
    requires ValidTable(b.table) && DictInv(b, events)
    ensures DictInv(Flush(cfg, b).0, events + Flush(cfg, b).1)
    ensures b.rows != [] ==> Flush(cfg, b).0.table.value.pending == []
  {
    if b.rows == [] {
      assert events + [] == events;
    } else {
      var t := b.table.value;
      var sorted := SortRows(b.rows, cfg.tie);
      var chunks, flushed := Chunks(t.pending, t.nextId), FlushFrom(cfg, [], sorted, b.nextExpected);
      FlushParts(cfg, b.rows, b.nextExpected, t, events);
      hide FlatMap, FlushFrom, Chunks, SortRows, AllDefined, RowIdsKnown, NoChunks;
      FlushDictEnd(events, chunks, flushed, sorted, t);
    }
  }

  lemma FlushParts(cfg: Config, rows: seq<Row>, next: Option<nat>, t: Table, events: seq<Event>)
    requires TableInv(t, events) && RowIdsKnown(rows, t.nextId) && AllDefined(events)
    ensures var sorted := SortRows(rows, cfg.tie);
            var chunks, flushed := Chunks(t.pending, t.nextId), FlushFrom(cfg, [], sorted, next);
            && AllDefined(events + chunks) && NoChunks(flushed)
            && Dictionary(chunks) == t.pending
            && Dictionary(events + chunks) == Dictionary(events) + Dictionary(chunks)
            && Sent(flushed) == sorted && RowIdsKnown(sorted, t.nextId)
  {
    hide FlatMap, FlushFrom, Chunks, SortRows, AllDefined, RowIdsKnown, NoChunks;
    var sorted := SortRows(rows, cfg.tie);
    ChunksDefined(events, t.pending, t.nextId);
    ChunksSay(t.pending, t.nextId);
    SaysAppend(events, Chunks(t.pending, t.nextId));
    FlushSays(cfg, [], sorted, next);
    assert [] + sorted == sorted;
    SortedIds(rows, cfg.tie, t.nextId);
    FlushHasNoChunks(cfg, [], sorted, next);
  }

  lemma FlushDictEnd(events: seq<Event>, chunks: seq<Event>, flushed: seq<Event>, sorted: seq<Row>, t: Table)
    requires AllDefined(events + chunks) && NoChunks(flushed)
    requires TableInv(t, events)
    requires Dictionary(chunks) == t.pending
    requires Dictionary(events + chunks) == Dictionary(events) + Dictionary(chunks)
    requires Sent(flushed) == sorted && RowIdsKnown(sorted, t.nextId)
    ensures AllDefined(events + (chunks + flushed))
    ensures TableInv(t.(pending := []), events + (chunks + flushed))
  {
    RowEventsDefined(events + chunks, flushed);
    assert (events + chunks) + flushed == events + (chunks + flushed);
  }

  lemma PushDict(cfg: Config, b: Batcher, events: seq<Event>, row: Row)
    requires ValidTable(b.table) && DictInv(b, events) && IdsKnown(row.values, b.table.value.nextId)
    ensures DictInv(Push(cfg, b, row).0, events + Push(cfg, b, row).1)
    ensures Push(cfg, b, row).0.table.value.nextId == b.table.value.nextId
  {
    assert b.table.Some?;
    PushEither(cfg, b, row);
    QueuedDict(b, events, row);
    FlushDict(cfg, Queued(b, row), events);
    FlushKeepsNext(cfg, Queued(b, row));
    hide Push, Flush, Enqueue, DictInv, IdsKnown;
    assert events + [] == events;
  }

  lemma QueuedDict(b: Batcher, events: seq<Event>, row: Row)
    requires DictInv(b, events) && IdsKnown(row.values, b.table.value.nextId)
    ensures DictInv(Queued(b, row), events)
  {
    hide AllDefined, TableInv;
  }

  lemma FlushKeepsNext(cfg: Config, b: Batcher)
    requires ValidTable(b.table) && b.table.Some?
    ensures var t := Flush(cfg, b).0.table; t.Some? && t.value.nextId == b.table.value.nextId
  {
    hide SortRows, FlushFrom, Chunks;
  }

  ghost predicate WalkDict(w: Walk) {
    DictInv(w.batcher, w.events) && IdsKnown(w.values, w.batcher.table.value.nextId)
  }

  lemma PlacedIds(values: seq<CellData>, col: nat, data: CellData, known: nat)
    requires IdsKnown(values, known) && (data.value.SharedId? ==> data.value.id < known)
    ensures IdsKnown(Placed(values, col, data), known)
  {
  }

  lemma AbortDict(events: seq<Event>, e: Event)
    requires AllDefined(events) && (e.Unsorted? || e.ReadFailed?)
    ensures AllDefined(events + [e]) && Dictionary(events + [e]) == Dictionary(events)
  {
    DefinedAppend(events, e);
    SaysOne(e);
    SaysAppend(events, [e]);
    assert Dictionary(events) + [] == Dictionary(events);
  }

  lemma TakeDict(cfg: Config, w: Walk, cell: Cell)
    requires ValidTable(w.batcher.table) && WalkDict(w)
    requires cell.data.value.SharedId? ==> cell.data.value.id < w.batcher.table.value.nextId
    ensures WalkDict(Take(cfg, w, cell))
  {
    var known := w.batcher.table.value.nextId;
    PlacedIds([], cell.col, cell.data, known);
    PlacedIds(w.values, cell.col, cell.data, known);
    AbortDict(w.events, Unsorted(cell.row, cell.col));
    AbortDict(w.events, Unsorted(w.currentRow, 0));
    PushDict(cfg, w.batcher, w.events, LateRow(cell));
    PushDict(cfg, w.batcher, w.events, Row(w.currentRow, w.values));
    hide AllDefined, Push, Placed, FlatMap, IdsKnown, RowIdsKnown;
  }

  lemma ConvertDict(w: Walk, a: Arrival)
    requires ValidTable(w.batcher.table) && WalkDict(w)
    ensures var (table, cell) := Convert(w.batcher.table, a);
            && WalkDict(w.(batcher := w.batcher.(table := table)))
            && (cell.data.value.SharedId? ==> cell.data.value.id < table.value.nextId)
  {
    MoreKnown(w.batcher.rows, w.values, w.batcher.table.value.nextId);
  }

  lemma MoreKnown(rows: seq<Row>, values: seq<CellData>, known: nat)
    ensures RowIdsKnown(rows, known) ==> RowIdsKnown(rows, known + 1)
    ensures IdsKnown(values, known) ==> IdsKnown(values, known + 1)
  {
  }

  lemma {:induction false} RunDict(s: Setup, arrivals: seq<Arrival>)
    requires s.useTable
    ensures WalkDict(Walked(s, arrivals))
  {
    if arrivals == [] {
      SaysOne(Started);
    } else {
      var before, a := arrivals[..|arrivals| - 1], arrivals[|arrivals| - 1];
      RunDict(s, before);
      var w := Walked(s, before);
      ConvertDict(w, a);
      var (table, cell) := Convert(w.batcher.table, a);
      TakeDict(s.cfg, w.(batcher := w.batcher.(table := table)), cell);
    }
  }

  /** Every stream in dictionary mode, however it ends: the chunks number their
      entries 0, 1, 2 and so on without a hole, none is empty or too large, and
      every id in a row was defined by an earlier event. */
  lemma {:induction false} IdsDefinedFirst(s: Setup, arrivals: seq<Arrival>, readError: bool)
    requires s.useTable
    ensures AllDefined(Stream(s, arrivals, readError).events)
  {
    RunDict(s, arrivals);
    var w := Walked(s, arrivals);
    AbortDict(w.events, ReadFailed);
    AbortDict(w.events, Unsorted(w.currentRow, 0));
    if !readError && w.status.Running? {
      var row := Row(w.currentRow, w.values);
      PushDict(s.cfg, w.batcher, w.events, row);
      var w' := if w.open then Pushed(s.cfg, w, row) else w;
      FlushDict(s.cfg, w'.batcher, w'.events);
    }
  }

  // ---- resolving ids -----------------------------------------------------------------------

  /** What a client makes of a cell with the table it has collected. */
  function Resolved(data: CellData, table: seq<Bytes>): CellData {
    if data.value.SharedId? && data.value.id < |table| then data.(value := Shared(table[data.value.id])) else data
  }

  function ResolvedRow(row: Row, table: seq<Bytes>): Row {
    Row(row.index, seq(|row.values|, c requires 0 <= c < |row.values| => Resolved(row.values[c], table)))
  }

  function ResolvedRows(rows: seq<Row>, table: seq<Bytes>): (r: seq<Row>)
    ensures |r| == |rows|
    ensures forall k :: 0 <= k < |rows| ==> r[k] == ResolvedRow(rows[k], table)
  {
    seq(|rows|, k requires 0 <= k < |rows| => ResolvedRow(rows[k], table))
  }

  function ResolvedOption(data: Option<CellData>, table: seq<Bytes>): Option<CellData> {
    if data.None? then None else Some(Resolved(data.value, table))
  }

  /** Borrows of one identity have one text. */
  ghost predicate TokensAgree(arrivals: seq<Arrival>) {
    forall i, j :: 0 <= i < |arrivals| && 0 <= j < |arrivals| ==> SameBorrow(arrivals[i].raw, arrivals[j].raw)
  }

  predicate SameBorrow(a: Raw, b: Raw) {
    a.Borrowed? && b.Borrowed? && a.token == b.token ==> a.text == b.text
  }

  /** Every entry interned, in id order. */
  function Entries(arrivals: seq<Arrival>): seq<Bytes> {
    if arrivals == [] then []
    else
      var before, a := arrivals[..|arrivals| - 1], arrivals[|arrivals| - 1];
      Entries(before) +
      if a.raw.Borrowed? && a.raw.token !in Interning(true, before).value.index then [a.raw.text] else []
  }

  /** `token` has an id, and the entry of that id is `text`. */
  predicate Knows(t: Table, entries: seq<Bytes>, token: nat, text: Bytes) {
    token in t.index && t.index[token] < |entries| && entries[t.index[token]] == text
  }

  ghost predicate Arrived(arrivals: seq<Arrival>, token: nat) {
    exists k :: 0 <= k < |arrivals| && arrivals[k].raw.Borrowed? && arrivals[k].raw.token == token
  }

  lemma ArrivedMore(before: seq<Arrival>, a: Arrival, token: nat)
    requires Arrived(before, token) || (a.raw.Borrowed? && a.raw.token == token)
    ensures Arrived(before + [a], token)
  {
    var all := before + [a];
    if Arrived(before, token) {
      var k :| 0 <= k < |before| && before[k].raw.Borrowed? && before[k].raw.token == token;
      assert all[k].raw.token == token;
    } else {
      assert all[|before|].raw.token == token;
    }
  }

  /** The table after `arrivals`: one id for each borrow that arrived, no two
      borrows share one, the ids are those of the entries, and the entry of a
      borrow's id is its text. */
  ghost predicate InterningInv(arrivals: seq<Arrival>) {
    var t := Interning(true, arrivals).value;
    && t.nextId == |Entries(arrivals)|
    && (forall token :: token in t.index <==> Arrived(arrivals, token))
    && (forall a, b :: a in t.index && b in t.index && t.index[a] == t.index[b] ==> a == b)
    && (forall k :: 0 <= k < |arrivals| && arrivals[k].raw.Borrowed? ==>
                      Knows(t, Entries(arrivals), arrivals[k].raw.token, arrivals[k].raw.text))
  }

  lemma ArrivedStep(before: seq<Arrival>, a: Arrival, token: nat)
    ensures Arrived(before + [a], token) <==> Arrived(before, token) || (a.raw.Borrowed? && a.raw.token == token)
  {
    var all := before + [a];
    if Arrived(before, token) || (a.raw.Borrowed? && a.raw.token == token) {
      ArrivedMore(before, a, token);
    }
    if k :| 0 <= k < |all| && all[k].raw.Borrowed? && all[k].raw.token == token {
      assert k == |before| || before[k].raw.token == token;
    }
  }

  /** One more arrival: a borrow met before keeps its id, and a new one gets
      the next. */
  lemma InterningStep(before: seq<Arrival>, a: Arrival)
    ensures var t, t' := Interning(true, before).value, Interning(true, before + [a]).value;
            if a.raw.Borrowed? && a.raw.token !in t.index then
              && t'.index == t.index[a.raw.token := t.nextId] && t'.nextId == t.nextId + 1
              && Entries(before + [a]) == Entries(before) + [a.raw.text]
            else t' == t && Entries(before + [a]) == Entries(before)
  {
    assert (before + [a])[..|before|] == before;
  }

  lemma InterningIdsStep(before: seq<Arrival>, a: Arrival)
    requires InterningInv(before)
    ensures var t := Interning(true, before + [a]).value;
            && t.nextId == |Entries(before + [a])|
            && (forall token :: token in t.index <==> Arrived(before + [a], token))
            && (forall a, b :: a in t.index && b in t.index && t.index[a] == t.index[b] ==> a == b)
  {
    InterningStep(before, a);
    KnownIds(before);
    hide Arrived, Interning, Entries, Knows;
    forall token: nat
      ensures token in Interning(true, before + [a]).value.index <==> Arrived(before + [a], token)
    {
      ArrivedStep(before, a, token);
    }
  }

  /** Ids in use are below the next one. */
  lemma KnownIds(arrivals: seq<Arrival>)
    requires InterningInv(arrivals)
    ensures var t := Interning(true, arrivals).value; forall token :: token in t.index ==> t.index[token] < t.nextId
  {
    hide Interning, Entries;
    var t := Interning(true, arrivals).value;
    forall token | token in t.index
      ensures t.index[token] < t.nextId
    {
      var k :| 0 <= k < |arrivals| && arrivals[k].raw.Borrowed? && arrivals[k].raw.token == token;
      assert Knows(t, Entries(arrivals), arrivals[k].raw.token, arrivals[k].raw.text);
    }
  }

  lemma InterningTextsStep(before: seq<Arrival>, a: Arrival, k: nat)
    requires InterningInv(before) && TokensAgree(before + [a])
    requires k <= |before| && (before + [a])[k].raw.Borrowed?
    ensures var all := before + [a];
            Knows(Interning(true, all).value, Entries(all), all[k].raw.token, all[k].raw.text)
  {
    InterningStep(before, a);
    hide Interning, Entries;
    var all := before + [a];
    var t := Interning(true, before).value;
    if k < |before| {
      assert before[k] == all[k];
      assert Knows(t, Entries(before), before[k].raw.token, before[k].raw.text);
    } else if a.raw.token in t.index {
      assert Arrived(before, a.raw.token);
      var j :| 0 <= j < |before| && before[j].raw.Borrowed? && before[j].raw.token == a.raw.token;
      assert Knows(t, Entries(before), before[j].raw.token, before[j].raw.text);
      assert SameBorrow(all[j].raw, all[k].raw);
    }
  }

  lemma TokensAgreeBefore(before: seq<Arrival>, a: Arrival)
    requires TokensAgree(before + [a])
    ensures TokensAgree(before)
  {
    forall i, j | 0 <= i < |before| && 0 <= j < |before|
      ensures SameBorrow(before[i].raw, before[j].raw)
    {
      assert SameBorrow((before + [a])[i].raw, (before + [a])[j].raw);
    }
  }

  lemma {:induction false} InterningIs(arrivals: seq<Arrival>)
    requires TokensAgree(arrivals)
    ensures InterningInv(arrivals)
  {
    if arrivals == [] {
    } else {
      var n := |arrivals| - 1;
      var before, a := arrivals[..n], arrivals[n];
      assert before + [a] == arrivals;
      TokensAgreeBefore(before, a);
      InterningIs(before);
      InterningIdsStep(before, a);
      forall k | 0 <= k < |arrivals| && arrivals[k].raw.Borrowed?
        ensures Knows(Interning(true, arrivals).value, Entries(arrivals), arrivals[k].raw.token, arrivals[k].raw.text)
      {
        InterningTextsStep(before, a, k);
      }
      hide Interning, Entries, Knows, Arrived, TokensAgree;
    }
  }

  /** A dictionary stream's cell stands for the plain stream's. */
  predicate StandsFor(d: Cell, p: Cell, entries: seq<Bytes>) {
    d.row == p.row && d.col == p.col && Resolved(d.data, entries) == p.data && (Carries(d.data) <==> Carries(p.data))
  }

  lemma LastResolves(before: seq<Arrival>, a: Arrival, entries: seq<Bytes>)
    requires TokensAgree(before + [a]) && Entries(before + [a]) <= entries
    ensures StandsFor(Convert(Interning(true, before), a).1, Convert(Interning(false, before), a).1, entries)
  {
    var all := before + [a];
    assert all[..|before|] == before;
    NoTable(before);
    InterningIs(all);
    assert a.raw.Borrowed? ==> Knows(Interning(true, all).value, Entries(all), all[|before|].raw.token, a.raw.text);
    hide InterningInv, TokensAgree, Entries;
  }

  lemma ConvertedLast(useTable: bool, before: seq<Arrival>, a: Arrival)
    ensures Converted(useTable, before + [a]) ==
            Converted(useTable, before) + [Convert(Interning(useTable, before), a).1]
  {
    assert (before + [a])[..|before|] == before;
  }

  /** Resolving a converted cell with the whole table gives the cell a plain
      stream converts. */
  lemma {:induction false} ConvertedResolves(arrivals: seq<Arrival>, k: nat, entries: seq<Bytes>)
    requires TokensAgree(arrivals) && k < |arrivals| && Entries(arrivals) <= entries
    ensures |Converted(true, arrivals)| == |Converted(false, arrivals)| == |arrivals|
    ensures StandsFor(Converted(true, arrivals)[k], Converted(false, arrivals)[k], entries)
  {
    var n := |arrivals| - 1;
    var before, a := arrivals[..n], arrivals[n];
    assert before + [a] == arrivals;
    ConvertedLength(true, before);
    ConvertedLength(false, before);
    ConvertedLast(true, before, a);
    ConvertedLast(false, before, a);
    if k < n {
      TokensAgreeBefore(before, a);
      assert Entries(before) <= Entries(arrivals);
      ConvertedResolves(before, k, entries);
    } else {
      LastResolves(before, a, entries);
    }
    hide Converted, Entries, TokensAgree, StandsFor;
  }

  lemma ConvertedLength(useTable: bool, arrivals: seq<Arrival>)
    ensures |Converted(useTable, arrivals)| == |arrivals|
  {
  }

  lemma NoTable(arrivals: seq<Arrival>)
    ensures Interning(false, arrivals) == None
  {
  }
}
