/** The per-stream shared-string table of `use_string_table` mode
    (`src/service.rs`, `StringTable`). */
module StringTables {
  import opened Sequences
  import opened Contract

  const MAX_STRING_CHUNK_BYTES := 4 * 1024 * 1024

  /** A table on values: `index` maps the identity of a borrow (its pointer and
      length) to its id, `pending` are the entries not sent yet, in id order. */
  datatype Table = Table(index: map<nat, nat>, pending: seq<Bytes>, nextId: nat)

  const NEW_TABLE := Table(map[], [], 0)

  function Interned(t: Table, token: nat, text: Bytes): (Table, nat) {
    if token in t.index then (t, t.index[token])
    else (Table(t.index[token := t.nextId], t.pending + [text], t.nextId + 1), t.nextId)
  }

  function TextBytes(entries: seq<Bytes>): nat {
    Sum((s: Bytes) => |s|, entries)
  }

  /** Where the chunk that has taken `n` entries of `bytes` bytes ends. */
  function ChunkEnd(pending: seq<Bytes>, n: nat, bytes: nat): (end: nat)
    requires n <= |pending|
    ensures n <= end <= |pending|
    decreases |pending| - n
  {
    if n == |pending| || (n > 0 && bytes + |pending[n]| > MAX_STRING_CHUNK_BYTES) then n
    else ChunkEnd(pending, n + 1, bytes + |pending[n]|)
  }

  lemma ChunkMoves(pending: seq<Bytes>)
    requires pending != []
    ensures 0 < ChunkEnd(pending, 0, 0)
  {
  }

  /** The chunks that put `pending` on the wire; the next id to hand out is
      `nextId`, so the first pending entry has id `nextId - |pending|`. */
  function Chunks(pending: seq<Bytes>, nextId: nat): seq<Event>
    requires |pending| <= nextId
    decreases |pending|
  {
    if pending == [] then []
    else
      ChunkMoves(pending);
      var n := ChunkEnd(pending, 0, 0);
      [StringTable(nextId - |pending|, pending[..n])] + Chunks(pending[n..], nextId)
  }

  lemma ChunksFirst(pending: seq<Bytes>, nextId: nat)
    requires |pending| <= nextId
    ensures pending == [] ==> Chunks(pending, nextId) == []
    ensures pending != [] ==>
              var n := ChunkEnd(pending, 0, 0);
              && 0 < n
              && Chunks(pending, nextId) ==
                 [StringTable(nextId - |pending|, pending[..n])] + Chunks(pending[n..], nextId)
              && pending[..n] + pending[n..] == pending
  {
    if pending != [] {
      ChunkMoves(pending);
    }
  }

  /** A chunk fits the byte cap unless it is a single entry, and stops only
      where one more entry would pass it. */
  lemma {:induction false} ChunkFits(pending: seq<Bytes>, n: nat, bytes: nat)
    requires n <= |pending|
    requires TextBytes(pending[..n]) == bytes
    requires bytes <= MAX_STRING_CHUNK_BYTES || n <= 1
    ensures var end := ChunkEnd(pending, n, bytes);
            && (TextBytes(pending[..end]) <= 4 * 1024 * 1024 || end <= 1)
            && (end < |pending| ==> TextBytes(pending[..end + 1]) > 4 * 1024 * 1024)
    decreases |pending| - n
  {
    if n == |pending| {
    } else {
      assert pending[..n + 1][..n] == pending[..n];
      if !(n > 0 && bytes + |pending[n]| > MAX_STRING_CHUNK_BYTES) {
        ChunkFits(pending, n + 1, bytes + |pending[n]|);
      }
    }
  }

  class StringTable {
    var index: map<nat, nat>
    var pending: seq<Bytes>
    var nextId: nat

    ghost predicate Valid()
      reads this
    {
      |pending| <= nextId
    }

    function State(): Table
      reads this
    {
      Table(index, pending, nextId)
    }

    constructor ()
      ensures Valid() && State() == NEW_TABLE
    {
      index, pending, nextId := map[], [], 0;
    }

    method Intern(token: nat, text: Bytes) returns (id: nat)
      requires Valid()
      modifies this
      ensures Valid() && (State(), id) == Interned(old(State()), token, text)
    {
      if token in index {
        return index[token];
      }
      id := nextId;
      index := index[token := id];
      pending := pending + [text];
      nextId := nextId + 1;
    }

    /** Take the next chunk of entries not sent yet, or nothing when every
        entry is on the wire: at least one entry, and as many as fit. */
    method TakeChunk() returns (chunk: Option<Event>)
      requires Valid()
      modifies this`pending
      ensures Valid()
      ensures old(pending) == [] ==> chunk == None && pending == []
      ensures old(pending) != [] ==>
                var n := ChunkEnd(old(pending), 0, 0);
                && chunk == Some(Event.StringTable(nextId - |old(pending)|, old(pending)[..n]))
                && pending == old(pending)[n..]
    {
      if pending == [] {
        return None;
      }
      var firstId := nextId - |pending|;
      var bytes: nat, n: nat := 0, 0;
      while n < |pending|
        invariant n <= |pending|
        invariant ChunkEnd(pending, n, bytes) == ChunkEnd(pending, 0, 0)
      {
        if n > 0 && bytes + |pending[n]| > MAX_STRING_CHUNK_BYTES {
          break;
        }
        bytes := bytes + |pending[n]|;
        n := n + 1;
      }
      var entries := pending[..n];
      pending := pending[n..];
      return Some(Event.StringTable(firstId, entries));
    }
  }
}
