/** BIFF12 streams read whole, record by record, against the counter that is
    fed them in pieces (`src/archive.rs`). */
module RecordStreams {
  import opened Sequences
  import opened Records

  // ---- reading ----

  /** A length of up to four bytes, seven bits each, lowest first: how many
      bytes it takes and its value. The fourth byte is the last whatever its
      top bit says. */
  function ReadLength(bytes: Bytes, read: nat): (r: Option<(nat, nat)>)
    ensures r.Some? ==> 0 < r.value.0 <= |bytes|
  {
    if bytes == [] then None
    else if bytes[0] >= 128 && read < 3 then
      match ReadLength(bytes[1..], read + 1)
      case None => None
      case Some((n, rest)) => Some((n + 1, bytes[0] % 128 + 128 * rest))
    else Some((1, bytes[0] % 128))
  }

  /** How many bytes a record's type takes. */
  function TypeBytes(bytes: Bytes): nat {
    if bytes != [] && bytes[0] < 128 then 1 else 2
  }

  /** A record's header: its size, and the length of the payload after it. */
  function ReadHeader(bytes: Bytes): (r: Option<(nat, nat)>)
    ensures r.Some? ==> 2 <= r.value.0 <= |bytes|
  {
    var n := TypeBytes(bytes);
    if |bytes| < n then None
    else
      match ReadLength(bytes[n..], 0)
      case None => None
      case Some((m, len)) => Some((n + m, len))
  }

  /** The records a stream begins. */
  function CountRecords(bytes: Bytes): nat
    decreases |bytes|
  {
    if ReadHeader(bytes).None? then 0
    else
      var (size, len) := ReadHeader(bytes).value;
      1 + if size + len <= |bytes| then CountRecords(bytes[size + len..]) else 0
  }

  /** A stream that ends where a record ends. */
  predicate WholeRecords(bytes: Bytes)
    decreases |bytes|
  {
    if bytes == [] then true
    else if ReadHeader(bytes).None? then false
    else
      var (size, len) := ReadHeader(bytes).value;
      size + len <= |bytes| && WholeRecords(bytes[size + len..])
  }

  // ---- the counter reads the same ----

  function AfterHeader(records: nat, len: nat): Counter {
    Counter(records + 1, if len == 0 then Type else Payload(len))
  }

  /** A counter `read` bytes into a length reads the rest of it. */
  ghost predicate ReadsLength(records: nat, read: nat, len: nat, bytes: Bytes) {
    var c := Counter(records, Length(read, len));
    if ReadLength(bytes, read).None? then Fed(c, bytes).records == records && Fed(c, bytes).state.Length?
    else
      var (n, v) := ReadLength(bytes, read).value;
      Fed(c, bytes[..n]) == AfterHeader(records, len + v * Power2(7 * read))
  }

  lemma {:induction false} LengthFed(records: nat, read: nat, len: nat, bytes: Bytes)
    requires read <= 3 && len < Power2(7 * read)
    ensures ReadsLength(records, read, len, bytes)
    decreases |bytes|
  {
    hide Power2, Fed;
    var c := Counter(records, Length(read, len));
    if bytes == [] {
      FedNothing(c);
    } else {
      var b := bytes[0];
      LengthGrows(len, read, b);
      FedFirst(c, bytes);
      if b >= 128 && read < 3 {
        LengthFed(records, read + 1, LengthWith(len, read, b), bytes[1..]);
        LengthFedMore(records, read, len, bytes);
      } else {
        assert bytes[..1] == [b];
        FedOne(c, b);
      }
    }
  }

  /** One more byte of a length, when the rest of it is read. */
  lemma LengthFedMore(records: nat, read: nat, len: nat, bytes: Bytes)
    requires read < 3 && len < Power2(7 * read) && bytes != [] && bytes[0] >= 128
    requires ReadsLength(records, read + 1, LengthWith(len, read, bytes[0]), bytes[1..])
    ensures ReadsLength(records, read, len, bytes)
  {
    hide Power2, Fed, LengthWith;
    FedFirst(Counter(records, Length(read, len)), bytes);
    if ReadLength(bytes[1..], read + 1).Some? {
      var (n, rest) := ReadLength(bytes[1..], read + 1).value;
      var c := Counter(records, Length(read, len));
      FedFirst(c, bytes[..n + 1]);
      assert bytes[..n + 1][1..] == bytes[1..][..n];
      LengthGrows(len, read, bytes[0]);
      PowerSeven(7 * read);
      Distribute(bytes[0] % 128, rest, Power2(7 * read));
    }
  }

  lemma Distribute(low: nat, rest: nat, unit: nat)
    ensures (low + 128 * rest) * unit == low * unit + rest * (128 * unit)
  {
  }

  lemma HeaderFed(records: nat, bytes: Bytes)
    ensures var c := Counter(records, Type);
            if ReadHeader(bytes).None? then
              Fed(c, bytes).records == records && (Fed(c, bytes).state.Type? <==> bytes == [])
            else
              var (size, len) := ReadHeader(bytes).value;
              Fed(c, bytes[..size]) == AfterHeader(records, len)
  {
    hide Power2, Fed, ReadLength, Or, LengthWith;
    var n := TypeBytes(bytes);
    if |bytes| >= n {
      TypeFed(records, bytes, n);
      var rest := bytes[n..];
      PowerZero();
      LengthFed(records, 0, 0, rest);
      FedInPieces(Counter(records, Type), bytes[..n], rest);
      assert bytes[..n] + rest == bytes;
      if ReadLength(rest, 0).Some? {
        var m := ReadLength(rest, 0).value.0;
        FedInPieces(Counter(records, Type), bytes[..n], rest[..m]);
        assert bytes[..n] + rest[..m] == bytes[..n + m];
      }
    } else if bytes == [] {
      FedNothing(Counter(records, Type));
    } else {
      assert bytes == [bytes[0]];
      FedOne(Counter(records, Type), bytes[0]);
    }
  }

  lemma PowerZero()
    ensures Power2(7 * 0) == 1
  {
  }

  lemma TypeFed(records: nat, bytes: Bytes, n: nat)
    requires n == TypeBytes(bytes) <= |bytes|
    ensures Fed(Counter(records, Type), bytes[..n]) == Counter(records, Length(0, 0))
  {
    FedOne(Counter(records, Type), bytes[0]);
    if n == 1 {
      assert bytes[..1] == [bytes[0]];
    } else {
      assert bytes[..2] == [bytes[0]] + [bytes[1]];
      FedInPieces(Counter(records, Type), [bytes[0]], [bytes[1]]);
      FedOne(Counter(records, TypeSecond), bytes[1]);
    }
  }

  lemma PayloadFed(records: nat, len: nat, bytes: Bytes)
    ensures len <= |bytes| ==> Fed(AfterHeader(records, len), bytes[..len]) == Counter(records + 1, Type)
    ensures len > |bytes| ==> Fed(AfterHeader(records, len), bytes) == Counter(records + 1, Payload(len - |bytes|))
  {
    if len > 0 {
      FedPayload(records + 1, len, bytes[..Min(len, |bytes|)]);
      assert bytes[..|bytes|] == bytes;
    }
  }

  /** A counter fed a stream, in whatever pieces, counts the records it holds,
      and is between records exactly when the stream is whole. */
  lemma {:induction false} CounterAgrees(records: nat, bytes: Bytes)
    ensures Fed(Counter(records, Type), bytes).records == records + CountRecords(bytes)
    ensures Fed(Counter(records, Type), bytes).state.Type? <==> WholeRecords(bytes)
    decreases |bytes|
  {
    hide Fed, ReadHeader;
    HeaderFed(records, bytes);
    if ReadHeader(bytes).None? {
    } else {
      var (size, len) := ReadHeader(bytes).value;
      var rest := bytes[size..];
      FedInPieces(Counter(records, Type), bytes[..size], rest);
      assert bytes[..size] + rest == bytes;
      PayloadFed(records, len, rest);
      if len <= |rest| {
        FedInPieces(AfterHeader(records, len), rest[..len], rest[len..]);
        assert rest[..len] + rest[len..] == rest && rest[len..] == bytes[size + len..];
        CounterAgrees(records + 1, bytes[size + len..]);
      }
    }
  }

  /** The counter after reading `pieces` one after another. */
  function FedAll(c: Counter, pieces: seq<Bytes>): Counter {
    if pieces == [] then c else Fed(FedAll(c, pieces[..|pieces| - 1]), pieces[|pieces| - 1])
  }

  function Whole(pieces: seq<Bytes>): Bytes {
    FlatMap((piece: Bytes) => piece, pieces)
  }

  /** However a stream is cut, reading it piece by piece is reading it whole:
      a record, its header even, may lie across any number of pieces. */
  lemma {:induction false} CutAnywhere(c: Counter, pieces: seq<Bytes>)
    ensures FedAll(c, pieces) == Fed(c, Whole(pieces))
  {
    if pieces == [] {
    } else {
      var n := |pieces| - 1;
      CutAnywhere(c, pieces[..n]);
      FedInPieces(c, Whole(pieces[..n]), pieces[n]);
    }
  }

  /** Read in any pieces, a stream is counted as its records are, and the
      counter is between records exactly when the stream is. */
  lemma {:induction false} AnySplitAgrees(pieces: seq<Bytes>)
    ensures var c, bytes := FedAll(NEW_COUNTER, pieces), Whole(pieces);
            && c.records == CountRecords(bytes)
            && (c.state.Type? <==> WholeRecords(bytes))
            && 2 * c.records <= |bytes|
  {
    CutAnywhere(NEW_COUNTER, pieces);
    hide Fed, FedAll, Whole, CountRecords, WholeRecords;
    CounterAgrees(0, Whole(pieces));
    TwoBytesARecord(Whole(pieces));
  }

  // ---- writing ----

  /** A record: a type below 2^14, and a payload below 2^28 bytes. */
  datatype Record = Record(kind: nat, payload: Bytes)

  predicate Encodable(r: Record) {
    r.kind < 0x4000 && |r.payload| < 0x1000_0000
  }

  function EncodeKind(kind: nat): Bytes
    requires kind < 0x4000
  {
    if kind < 128 then [kind] else [128 + kind % 128, kind / 128]
  }

  function EncodeLength(n: nat): (r: Bytes)
    ensures r != []
  {
    if n < 128 then [n] else [128 + n % 128] + EncodeLength(n / 128)
  }

  function EncodeRecord(r: Record): Bytes {
    if Encodable(r) then EncodeKind(r.kind) + EncodeLength(|r.payload|) + r.payload else []
  }

  lemma {:induction false} LengthRoundTrip(n: nat, read: nat, rest: Bytes)
    requires read <= 3 && n < Power2(7 * (4 - read))
    ensures ReadLength(EncodeLength(n) + rest, read) == Some((|EncodeLength(n)|, n))
  {
    var bytes := EncodeLength(n) + rest;
    if n < 128 {
    } else {
      PowerSeven(7 * (3 - read));
      LengthRoundTrip(n / 128, read + 1, rest);
      assert bytes[1..] == EncodeLength(n / 128) + rest;
    }
  }

  lemma {:induction false} RecordRoundTrip(r: Record, rest: Bytes)
    requires Encodable(r)
    ensures |EncodeRecord(r)| >= |r.payload|
    ensures ReadHeader(EncodeRecord(r) + rest) == Some((|EncodeRecord(r)| - |r.payload|, |r.payload|))
  {
    hide Power2, EncodeLength, ReadLength;
    var kind, length := EncodeKind(r.kind), EncodeLength(|r.payload|);
    var bytes := EncodeRecord(r) + rest;
    assert TypeBytes(bytes) == |kind|;
    assert bytes[|kind|..] == length + (r.payload + rest);
    TwentyEightBits();
    LengthRoundTrip(|r.payload|, 0, r.payload + rest);
  }

  lemma TwentyEightBits()
    ensures Power2(7 * 4) == 0x1000_0000
  {
    PowerSeven(0);
    PowerSeven(7);
    PowerSeven(14);
    PowerSeven(21);
  }

  /** A stream of encoded records is counted, each once, and the counter ends
      between records. */
  lemma {:induction false} EncodedRecordsAreCounted(rs: seq<Record>)
    requires forall k :: 0 <= k < |rs| ==> Encodable(rs[k])
    ensures Fed(NEW_COUNTER, FlatMap(EncodeRecord, rs)) == Counter(|rs|, Type)
  {
    if rs == [] {
    } else {
      var n := |rs| - 1;
      EncodedRecordsAreCounted(rs[..n]);
      var before, last := FlatMap(EncodeRecord, rs[..n]), EncodeRecord(rs[n]);
      FedInPieces(NEW_COUNTER, before, last);
      OneRecordIsCounted(n, rs[n]);
    }
  }

  lemma OneRecordIsCounted(records: nat, r: Record)
    requires Encodable(r)
    ensures Fed(Counter(records, Type), EncodeRecord(r)) == Counter(records + 1, Type)
  {
    hide EncodeRecord, ReadHeader;
    var bytes := EncodeRecord(r);
    RecordRoundTrip(r, []);
    assert bytes + [] == bytes;
    HeaderFed(records, bytes);
    var size := |bytes| - |r.payload|;
    FedInPieces(Counter(records, Type), bytes[..size], bytes[size..]);
    assert bytes[..size] + bytes[size..] == bytes;
    PayloadFed(records, |r.payload|, bytes[size..]);
    assert bytes[size..][..|r.payload|] == bytes[size..];
  }
}
