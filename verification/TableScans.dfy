/** Measuring a shared-string table before it is parsed (`src/archive.rs`,
    `scan_shared_strings`). */
module TableScans {
  import opened Sequences
  import opened Records
  import opened RecordStreams
  import opened Attributes

  const SINK_BYTES := 64 * 1024
  const SST_HEAD_SCAN := 1024 * 1024
  const SHARED_STRING_TAG_COST := 16
  const SHARED_STRING_RECORD_COST := 48
  const SHARED_STRING_SLOT := 24
  const MIN_SI_BYTES := 8

  // ---- reads ----

  /** What one read of a part gives. A part ends after its last read. */
  datatype ReadResult = Data(bytes: Bytes) | Interrupted | Failed

  /** A read fills at most the sink, and one that gives nothing is the end. */
  predicate Readable(part: seq<ReadResult>) {
    forall k :: 0 <= k < |part| && part[k].Data? ==> 0 < |part[k].bytes| <= SINK_BYTES
  }

  /** The bytes a part gives before its end or its first failure. */
  function Delivered(part: seq<ReadResult>): Bytes {
    if part == [] || part[0].Failed? then []
    else (if part[0].Data? then part[0].bytes else []) + Delivered(part[1..])
  }

  function BytesOf(read: ReadResult): Bytes {
    if read.Data? then read.bytes else []
  }

  /** The bytes of the reads that gave some, in order. */
  function DataBytes(part: seq<ReadResult>): Bytes {
    FlatMap(BytesOf, part)
  }

  lemma DataBytesFirst(first: ReadResult, rest: seq<ReadResult>)
    ensures DataBytes([first] + rest) == BytesOf(first) + DataBytes(rest)
  {
    FlatMapAppend(BytesOf, [first], rest);
    FlatMapOne(BytesOf, first);
  }

  /** What a part delivers is what its reads gave, interrupted ones apart, up
      to the first that failed. */
  lemma {:induction false} DeliveredIs(part: seq<ReadResult>, end: nat)
    requires end <= |part| && forall k :: 0 <= k < end ==> !part[k].Failed?
    requires end < |part| ==> part[end].Failed?
    ensures Delivered(part) == DataBytes(part[..end])
    decreases end
  {
    if end == 0 {
    } else {
      hide FlatMap, DataBytes;
      DeliveredIs(part[1..], end - 1);
      assert part[..end] == [part[0]] + part[1..][..end - 1];
      DataBytesFirst(part[0], part[1..][..end - 1]);
    }
  }

  // ---- scanning a shared-string table ----

  datatype Scan = Estimate(bytes: nat) | OverLimit | Malformed

  function Tags(bytes: Bytes): nat {
    if bytes == [] then 0 else Tags(bytes[..|bytes| - 1]) + if bytes[|bytes| - 1] == LESS then 1 else 0
  }

  lemma {:induction false} TagsAdd(a: Bytes, b: Bytes)
    ensures Tags(a + b) == Tags(a) + Tags(b)
  {
    if b == [] {
      assert a + b == a;
    } else {
      assert (a + b)[..|a + b| - 1] == a + b[..|b| - 1];
      TagsAdd(a, b[..|b| - 1]);
    }
  }

  lemma {:induction false} FewTags(bytes: Bytes)
    ensures Tags(bytes) <= |bytes|
  {
    if bytes == [] {
    } else {
      FewTags(bytes[..|bytes| - 1]);
    }
  }

  function Head(bytes: Bytes): Bytes {
    bytes[..Min(|bytes|, SST_HEAD_SCAN)]
  }

  /** What the entries of a table are charged on top of its bytes. */
  function EntriesCost(bytes: Bytes, binary: bool): nat {
    if binary then SatMul(Fed(NEW_COUNTER, bytes).records, SHARED_STRING_RECORD_COST)
    else SatMul(Tags(bytes), SHARED_STRING_TAG_COST)
  }

  /** The whole scan, as a function of the table's bytes. */
  function Scanned(bytes: Bytes, binary: bool, max: nat): Scan {
    var total := Min(|bytes|, U64_MAX);
    if total > max then OverLimit
    else
      var parsed := SatAdd(total, EntriesCost(bytes, binary));
      match DeclaredUniqueCount(Head(bytes))
      case None => Estimate(parsed)
      case Some(declared) =>
        if declared > total / MIN_SI_BYTES then Malformed
        else Estimate(Max(parsed, SatMul(declared, SHARED_STRING_SLOT)))
  }

  lemma {:induction false} TagsAre(bytes: Bytes)
    ensures Tags(bytes) == multiset(bytes)[LESS]
  {
    if bytes == [] {
    } else {
      TagsAre(bytes[..|bytes| - 1]);
      assert bytes == bytes[..|bytes| - 1] + [bytes[|bytes| - 1]];
    }
  }

  /** The entries a table is charged for: 16 bytes for each `<` of one in xml,
      and 48 for each record of one in xlsb. */
  function EntryBytes(bytes: Bytes, binary: bool): nat {
    if binary then 48 * CountRecords(bytes) else 16 * multiset(bytes)[60]
  }

  /** A table is over its limit exactly when its bytes are more, counted in 64
      bits; one within it is refused exactly when the head declares more than an
      eighth of them; and any other is charged its bytes and its entries, or 24
      bytes for each string declared if that is more. */
  lemma {:induction false} ScannedIs(bytes: Bytes, binary: bool, max: nat)
    ensures var total := Min(|bytes|, 0xFFFF_FFFF_FFFF_FFFF);
            var scan, declared := Scanned(bytes, binary, max), DeclaredUniqueCount(bytes[..Min(|bytes|, 0x10_0000)]);
            && (scan.OverLimit? <==> total > max)
            && (scan.Malformed? <==> total <= max && declared.Some? && declared.value > total / 8)
            && (scan.Estimate? ==>
                  var charged := Min(|bytes| + EntryBytes(bytes, binary), 0xFFFF_FFFF_FFFF_FFFF);
                  && scan.bytes >= charged
                  && (declared.None? ==> scan.bytes == charged)
                  && (declared.Some? ==>
                        scan.bytes == Max(charged, Min(24 * declared.value, 0xFFFF_FFFF_FFFF_FFFF))))
  {
    hide DeclaredUniqueCount, Fed, Tags, CountRecords;
    CounterAgrees(0, bytes);
    TagsAre(bytes);
  }

  /** An accepted table is charged at least what calamine reserves for the
      count it declares, and never more than a fixed multiple of its bytes. */
  lemma {:induction false} EstimateIsBounded(bytes: Bytes, binary: bool, max: nat)
    requires max <= U64_MAX && Scanned(bytes, binary, max).Estimate?
    ensures var estimate := Scanned(bytes, binary, max).bytes;
            && Min(|bytes|, U64_MAX) <= estimate <= U64_MAX
            && estimate <= (if binary then 25 else 17) * |bytes|
            && (DeclaredUniqueCount(Head(bytes)).Some? ==>
                  var declared := DeclaredUniqueCount(Head(bytes)).value;
                  8 * declared <= |bytes| && Min(24 * declared, U64_MAX) <= estimate)
  {
    hide DeclaredUniqueCount, Fed, Tags;
    FewTags(bytes);
    TwoBytesARecord(bytes);
  }

  /** Of a table within the limit whose first MiB holds a first printed count,
      the scan refuses exactly the ones that show more than their bytes could
      hold. */
  lemma {:induction false} CountIsChecked(c: CountText, bytes: Bytes, binary: bool, max: nat)
    requires CountsFirst(c) && bytes[..Min(|bytes|, 0x10_0000)] == HeadOf(c)
    requires Min(|bytes|, U64_MAX) <= max
    ensures Scanned(bytes, binary, max).Malformed? <==>
            CountShows(c) && Min(c.n, U64_MAX) > Min(|bytes|, U64_MAX) / 8
  {
    hide Fed, Tags, DeclaredUniqueCount, CountsFirst, HeadOf, CountShows;
    PrintedCountIsRead(c);
  }

  /** A table of a start tag alone, with a quoted `>` in it, passes although it
      prints a trillion less one. */
  lemma HiddenCountPasses(binary: bool, max: nat)
    requires 100 <= max
    ensures var bytes := HeadOf(QuotedGreater(999_999_999_999));
            |bytes| / MIN_SI_BYTES < 999_999_999_999 && Scanned(bytes, binary, max).Estimate?
  {
    hide Fed, Tags, DeclaredUniqueCount;
    var c := QuotedGreater(999_999_999_999);
    assert |Decimal(999_999_999_999)| == 12;
    QuotedGreaterHides(999_999_999_999);
    CountIsChecked(c, HeadOf(c), binary, max);
  }

  /** What is read so far, as the scan's variables hold it. */
  ghost predicate Reading(bytes: Bytes, total: nat, tags: nat, records: RecordCounter, head: Bytes, binary: bool)
    reads records
  {
    && total == Min(|bytes|, U64_MAX)
    && ValidCounter(records.State())
    && (binary ==> records.State() == Fed(NEW_COUNTER, bytes))
    && (!binary ==> tags == Tags(bytes))
    && head == Head(bytes)
  }

  /** Whatever pieces the reads come in, and wherever they are interrupted, the
      scan depends only on the bytes. */
  method ScanSharedStrings(part: seq<ReadResult>, binary: bool, max: nat) returns (r: Scan)
    requires Readable(part)
    ensures r == Scanned(Delivered(part), binary, max)
  {
    hide DeclaredUniqueCount, Fed, Tags, Head, Delivered;
    var head: Bytes, total: nat, tags: nat := [], 0, 0;
    var records := new RecordCounter();
    ghost var got: Bytes := [];
    NothingRead();
    assert part[0..] == part && got + Delivered(part) == Delivered(part);
    var k := 0;
    while k < |part| && !part[k].Failed?
      invariant k <= |part|
      invariant fresh(records) && Reading(got, total, tags, records, head, binary)
      invariant got + Delivered(part[k..]) == Delivered(part)
      invariant total <= max
    {
      OneMoreRead(part, got, k);
      if part[k].Data? {
        var bytes := part[k].bytes;
        total := SatAdd(total, |bytes|);
        if total > max {
          return OverLimit;
        }
        if binary {
          records.Feed(bytes);
          FedInPieces(NEW_COUNTER, got, bytes);
        } else {
          var more := CountTags(bytes);
          tags := tags + more;
          TagsAdd(got, bytes);
        }
        HeadGrows(got, bytes);
        if |head| < SST_HEAD_SCAN {
          var room := SST_HEAD_SCAN - |head|;
          head := head + bytes[..Min(|bytes|, room)];
        }
        got := got + bytes;
      }
      k := k + 1;
    }
    EverythingRead(part, got, k);
    var entries := if binary then SatMul(records.records, SHARED_STRING_RECORD_COST)
                   else SatMul(tags, SHARED_STRING_TAG_COST);
    var parsed := SatAdd(total, entries);
    var declared := DeclaredUniqueCount(head);
    if declared.Some? {
      if declared.value > total / MIN_SI_BYTES {
        return Malformed;
      }
      parsed := Max(parsed, SatMul(declared.value, SHARED_STRING_SLOT));
    }
    return Estimate(parsed);
  }

  lemma OneMoreRead(part: seq<ReadResult>, got: Bytes, k: nat)
    requires k < |part| && !part[k].Failed? && got + Delivered(part[k..]) == Delivered(part)
    ensures (if part[k].Data? then got + part[k].bytes else got) + Delivered(part[k + 1..]) == Delivered(part)
  {
    hide Delivered;
    assert part[k..][1..] == part[k + 1..];
    FirstRead(part[k..]);
    if part[k].Data? {
      ConcatAssociates(got, part[k].bytes, Delivered(part[k + 1..]));
    }
  }

  lemma FirstRead(part: seq<ReadResult>)
    requires part != [] && !part[0].Failed?
    ensures Delivered(part) == if part[0].Data? then part[0].bytes + Delivered(part[1..]) else Delivered(part[1..])
  {
    assert part[0].Data? || Delivered(part) == [] + Delivered(part[1..]);
  }

  lemma EverythingRead(part: seq<ReadResult>, got: Bytes, k: nat)
    requires k <= |part| && (k == |part| || part[k].Failed?) && got + Delivered(part[k..]) == Delivered(part)
    ensures got == Delivered(part)
  {
    assert got + [] == got;
  }

  lemma NothingRead()
    ensures Fed(NEW_COUNTER, []) == NEW_COUNTER && Tags([]) == 0 && Head([]) == []
  {
  }

  lemma HeadGrows(got: Bytes, bytes: Bytes)
    ensures Head(got + bytes) ==
            if |Head(got)| < SST_HEAD_SCAN then Head(got) + bytes[..Min(|bytes|, SST_HEAD_SCAN - |Head(got)|)]
            else Head(got)
  {
  }

  method CountTags(bytes: Bytes) returns (n: nat)
    ensures n == Tags(bytes)
  {
    n := 0;
    for k := 0 to |bytes|
      invariant n == Tags(bytes[..k])
    {
      assert bytes[..k + 1][..k] == bytes[..k];
      if bytes[k] == LESS {
        n := n + 1;
      }
    }
    assert bytes[..|bytes|] == bytes;
  }
}
