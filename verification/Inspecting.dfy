/** Measuring what opening a workbook would inflate (`src/archive.rs`,
    `inflated_size` and `inspect`). */
module Inspecting {
  import opened Sequences
  import opened TableScans

  // ---- pictures ----

  /** `inflated_size`: how many bytes a part gives, or nothing once that passes
      `limit`; and how many it read to find out. */
  method InflatedSize(part: seq<ReadResult>, limit: nat) returns (size: Option<nat>, read: nat)
    requires Readable(part) && limit <= U64_MAX
    ensures size == if Min(|Delivered(part)|, U64_MAX) <= limit then Some(Min(|Delivered(part)|, U64_MAX)) else None
    ensures size.Some? ==> read == |Delivered(part)|
    ensures size.None? ==> read <= limit + SINK_BYTES
  {
    var total := 0;
    read := 0;
    var k := 0;
    while k < |part| && !part[k].Failed?
      invariant k <= |part|
      invariant read + |Delivered(part[k..])| == |Delivered(part)|
      invariant total == Min(read, U64_MAX) <= limit
    {
      assert part[k..][1..] == part[k + 1..];
      if part[k].Data? {
        read := read + |part[k].bytes|;
        total := SatAdd(total, |part[k].bytes|);
        if total > limit {
          return None, read;
        }
      }
      k := k + 1;
    }
    return Some(total), read;
  }

  // ---- the whole package ----

  /** `InflateLimits`. */
  datatype Limits = Limits(maxPicture: nat, maxPictureTotal: nat, maxSharedStrings: nat)

  predicate ValidLimits(c: Limits) {
    c.maxPicture <= U64_MAX && c.maxPictureTotal <= U64_MAX && c.maxSharedStrings <= U64_MAX
  }

  /** An entry of the archive, by what it is classified as. */
  datatype Entry = Other | Picture(part: seq<ReadResult>) | SharedStrings(part: seq<ReadResult>, binary: bool)

  /** No part gives 2^64 bytes. */
  predicate ReadableEntries(entries: seq<Entry>) {
    forall k :: 0 <= k < |entries| && !entries[k].Other? ==>
                  Readable(entries[k].part) && |Delivered(entries[k].part)| <= U64_MAX
  }

  datatype Inspection =
    | Inflated(pictures: nat, strings: nat)
    | PictureTooLarge
    | PicturesTooLarge
    | TableTooLarge
    | TableMalformed

  function Size(part: seq<ReadResult>): nat {
    Min(|Delivered(part)|, U64_MAX)
  }

  function InspectEntry(c: Limits, pictures: nat, strings: nat, entry: Entry): Inspection {
    match entry
    case Other => Inflated(pictures, strings)
    case Picture(part) =>
      var limit := Min(c.maxPicture, Max(c.maxPictureTotal - pictures, 0));
      if Size(part) <= limit then Inflated(SatAdd(pictures, Size(part)), strings)
      else if limit == c.maxPicture then PictureTooLarge
      else PicturesTooLarge
    case SharedStrings(part, binary) => (
      match Scanned(Delivered(part), binary, c.maxSharedStrings)
      case OverLimit => TableTooLarge
      case Malformed => TableMalformed
      case Estimate(bytes) => Inflated(pictures, SatAdd(strings, bytes))
    )
  }

  /** `inspect`, as a function of what the entries give: up to the first one
      that is refused. */
  function Inspected(c: Limits, entries: seq<Entry>): Inspection {
    if entries == [] then Inflated(0, 0)
    else
      match Inspected(c, entries[..|entries| - 1])
      case Inflated(pictures, strings) => InspectEntry(c, pictures, strings, entries[|entries| - 1])
      case refused => refused
  }

  function PictureBytes(entries: seq<Entry>): nat {
    if entries == [] then 0
    else
      var last := entries[|entries| - 1];
      PictureBytes(entries[..|entries| - 1]) + if last.Picture? then Size(last.part) else 0
  }

  ghost predicate PicturesWithin(c: Limits, entries: seq<Entry>) {
    && (forall k :: 0 <= k < |entries| && entries[k].Picture? ==> Size(entries[k].part) <= c.maxPicture)
    && PictureBytes(entries) <= c.maxPictureTotal
  }

  /** The pictures of a workbook that is let through are each within the
      picture limit, and together within the total and what is reported. */
  lemma {:induction false} PicturesAreWithin(c: Limits, entries: seq<Entry>)
    requires ValidLimits(c) && Inspected(c, entries).Inflated?
    ensures PicturesWithin(c, entries)
    ensures Inspected(c, entries).pictures == PictureBytes(entries)
  {
    hide Size, Scanned;
    if entries == [] {
    } else {
      PicturesAreWithin(c, entries[..|entries| - 1]);
    }
  }

  /** A workbook is refused for its pictures alone exactly when one of them or
      their total passes its limit. */
  lemma {:induction false} PicturesDecide(c: Limits, entries: seq<Entry>)
    requires ValidLimits(c) && forall k :: 0 <= k < |entries| ==> !entries[k].SharedStrings?
    ensures Inspected(c, entries).Inflated? <==> PicturesWithin(c, entries)
  {
    hide Size, Scanned;
    if entries == [] {
    } else {
      var n := |entries| - 1;
      PicturesDecide(c, entries[..n]);
      if Inspected(c, entries[..n]).Inflated? {
        PicturesAreWithin(c, entries[..n]);
      } else {
        MorePictures(c, entries);
      }
    }
  }

  lemma MorePictures(c: Limits, entries: seq<Entry>)
    requires entries != []
    ensures PicturesWithin(c, entries) ==> PicturesWithin(c, entries[..|entries| - 1])
  {
    hide Size;
  }

  // ---- the verdict ----

  /** What the shared-string tables are charged together. */
  function TableBytes(c: Limits, entries: seq<Entry>): nat {
    if entries == [] then 0
    else
      var last := entries[|entries| - 1];
      TableBytes(c, entries[..|entries| - 1]) + if last.SharedStrings? then Charge(c, last) else 0
  }

  function Charge(c: Limits, table: Entry): nat
    requires table.SharedStrings?
  {
    var scan := Scanned(Delivered(table.part), table.binary, c.maxSharedStrings);
    if scan.Estimate? then scan.bytes else 0
  }

  ghost predicate TablesPass(c: Limits, entries: seq<Entry>) {
    forall k :: 0 <= k < |entries| && entries[k].SharedStrings? ==>
                  Scanned(Delivered(entries[k].part), entries[k].binary, c.maxSharedStrings).Estimate?
  }

  /** Every picture and every table is within its limits, and so are the
      pictures together. */
  ghost predicate Passes(c: Limits, entries: seq<Entry>) {
    PicturesWithin(c, entries) && TablesPass(c, entries)
  }

  /** What a workbook is refused for when `entry` is the first at fault, the
      pictures before it being `before` bytes: a picture is measured up to its own
      limit or up to the room left, whichever is less, and refused for that. */
  ghost predicate FaultIs(c: Limits, before: nat, entry: Entry, verdict: Inspection) {
    match entry
    case Other => false
    case Picture(part) =>
      verdict == if c.maxPicture <= c.maxPictureTotal - before then PictureTooLarge else PicturesTooLarge
    case SharedStrings(part, binary) =>
      var scan := Scanned(Delivered(part), binary, c.maxSharedStrings);
      || (scan.OverLimit? && verdict == TableTooLarge)
      || (scan.Malformed? && verdict == TableMalformed)
  }

  /** The verdict on a whole package: what pictures and tables come to when all
      of them pass, and otherwise the first fault. */
  ghost predicate VerdictIs(c: Limits, entries: seq<Entry>, verdict: Inspection) {
    && (Passes(c, entries) ==>
          verdict == Inflated(PictureBytes(entries), Min(TableBytes(c, entries), 0xFFFF_FFFF_FFFF_FFFF)))
    && (forall k :: 0 <= k < |entries| && Passes(c, entries[..k]) && !Passes(c, entries[..k + 1]) ==>
                      FaultIs(c, PictureBytes(entries[..k]), entries[k], verdict))
    && (verdict.Inflated? <==> Passes(c, entries))
  }

  /** One more entry passes, or is the first at fault. */
  lemma OneMorePasses(c: Limits, before: seq<Entry>, entry: Entry)
    requires ValidLimits(c) && Passes(c, before)
    ensures var all, strings := before + [entry], Min(TableBytes(c, before), U64_MAX);
            var verdict := InspectEntry(c, PictureBytes(before), strings, entry);
            if Passes(c, all) then verdict == Inflated(PictureBytes(all), Min(TableBytes(c, all), U64_MAX))
            else FaultIs(c, PictureBytes(before), entry, verdict)
  {
    hide Size, Scanned, Delivered;
    var all := before + [entry];
    assert all[..|before|] == before && all[|before|] == entry;
    if entry.Picture? {
      PictureJudged(c, before, entry);
    } else {
      NotAPicture(c, before, entry);
    }
  }

  lemma PictureJudged(c: Limits, before: seq<Entry>, entry: Entry)
    requires ValidLimits(c) && Passes(c, before) && entry.Picture?
    ensures Passes(c, before + [entry]) <==>
            Size(entry.part) <= c.maxPicture && PictureBytes(before) + Size(entry.part) <= c.maxPictureTotal
    ensures PictureBytes(before + [entry]) == PictureBytes(before) + Size(entry.part)
    ensures TableBytes(c, before + [entry]) == TableBytes(c, before)
  {
    hide Size, Scanned, Delivered;
    var all := before + [entry];
    assert all[..|before|] == before && all[|before|] == entry;
    assert forall k :: 0 <= k < |before| ==> all[k] == before[k];
  }

  lemma NotAPicture(c: Limits, before: seq<Entry>, entry: Entry)
    requires Passes(c, before) && !entry.Picture?
    ensures Passes(c, before + [entry]) <==>
            entry.SharedStrings? ==> Scanned(Delivered(entry.part), entry.binary, c.maxSharedStrings).Estimate?
    ensures PictureBytes(before + [entry]) == PictureBytes(before)
    ensures TableBytes(c, before + [entry]) ==
            TableBytes(c, before) + if entry.SharedStrings? then Charge(c, entry) else 0
  {
    hide Size, Scanned, Delivered, Charge;
    var all := before + [entry];
    assert all[..|before|] == before && all[|before|] == entry;
    assert forall k :: 0 <= k < |before| ==> all[k] == before[k];
  }

  lemma PassedBefore(c: Limits, entries: seq<Entry>, k: nat)
    requires k <= |entries| && Passes(c, entries)
    ensures Passes(c, entries[..k])
    decreases |entries| - k
  {
    hide Size, Scanned, Delivered;
    if k == |entries| {
      assert entries[..k] == entries;
    } else {
      PassedBefore(c, entries, k + 1);
      assert entries[..k + 1][..k] == entries[..k];
    }
  }

  lemma NothingToInspect(c: Limits)
    ensures VerdictIs(c, [], Inspected(c, []))
  {
  }

  lemma FaultRefuses(c: Limits, before: nat, entry: Entry, verdict: Inspection)
    requires FaultIs(c, before, entry, verdict)
    ensures !verdict.Inflated?
  {
  }

  lemma EarlierPass(c: Limits, before: seq<Entry>, last: Entry, k: nat)
    requires k < |before| && Passes(c, before)
    ensures Passes(c, (before + [last])[..k + 1])
  {
    PassedBefore(c, before, k + 1);
    assert before[..k + 1] == (before + [last])[..k + 1];
  }

  /** The last entry, when those before it pass. */
  lemma LastJudged(c: Limits, before: seq<Entry>, last: Entry)
    requires ValidLimits(c) && Passes(c, before) && VerdictIs(c, before, Inspected(c, before))
    ensures VerdictIs(c, before + [last], Inspected(c, before + [last]))
  {
    hide Passes, FaultIs, InspectEntry, PictureBytes, TableBytes;
    var entries, n := before + [last], |before|;
    assert entries[..n] == before && entries[n] == last;
    var verdict := Inspected(c, entries);
    OneMorePasses(c, before, last);
    forall k | 0 <= k < |entries| && Passes(c, entries[..k]) && !Passes(c, entries[..k + 1])
      ensures FaultIs(c, PictureBytes(entries[..k]), entries[k], verdict)
    {
      if k < n {
        EarlierPass(c, before, last, k);
      } else {
        assert entries[..n + 1] == entries;
      }
    }
    if !Passes(c, entries) {
      FaultRefuses(c, PictureBytes(before), last, verdict);
    }
  }

  /** The verdict stays what it was once it is a refusal. */
  lemma FaultStays(c: Limits, before: seq<Entry>, last: Entry)
    requires !Passes(c, before) && VerdictIs(c, before, Inspected(c, before))
    ensures VerdictIs(c, before + [last], Inspected(c, before + [last]))
  {
    hide Passes, FaultIs, InspectEntry, PictureBytes, TableBytes;
    var entries, n := before + [last], |before|;
    assert entries[..n] == before && entries[n] == last;
    var verdict := Inspected(c, entries);
    assert verdict == Inspected(c, before);
    forall k | 0 <= k < |entries| && Passes(c, entries[..k]) && !Passes(c, entries[..k + 1])
      ensures FaultIs(c, PictureBytes(entries[..k]), entries[k], verdict)
    {
      if k < n {
        assert entries[..k] == before[..k] && entries[..k + 1] == before[..k + 1] && entries[k] == before[k];
      }
    }
    if Passes(c, entries) {
      PassedBefore(c, entries, n);
    }
  }

  /** A workbook is let through exactly when every picture and every table
      passes; the tables' charges are summed in 64 bits; and what it is refused
      for is the first fault. */
  lemma {:induction false} InspectedIs(c: Limits, entries: seq<Entry>)
    requires ValidLimits(c)
    ensures VerdictIs(c, entries, Inspected(c, entries))
  {
    hide Passes, VerdictIs, Inspected;
    if entries == [] {
      NothingToInspect(c);
    } else {
      var before, last := entries[..|entries| - 1], entries[|entries| - 1];
      assert before + [last] == entries;
      InspectedIs(c, before);
      if Passes(c, before) {
        LastJudged(c, before, last);
      } else {
        FaultStays(c, before, last);
      }
    }
  }

  /** Measures every entry, and says how many bytes of pictures it read. */
  method Inspect(entries: seq<Entry>, c: Limits) returns (r: Inspection, pictureBytesRead: nat)
    requires ReadableEntries(entries) && ValidLimits(c)
    ensures r == Inspected(c, entries) && VerdictIs(c, entries, r)
    ensures pictureBytesRead <= c.maxPictureTotal + SINK_BYTES
  {
    hide Scanned, Delivered, VerdictIs;
    InspectedIs(c, entries);
    var media: nat, strings: nat := 0, 0;
    pictureBytesRead := 0;
    for k := 0 to |entries|
      invariant Inspected(c, entries[..k]) == Inflated(media, strings)
      invariant pictureBytesRead == media <= c.maxPictureTotal
    {
      Refused(c, entries, k);
      assert entries[..k + 1][..k] == entries[..k];
      match entries[k] {
        case Other =>
        case Picture(part) =>
          var room := c.maxPictureTotal - media;
          var limit := Min(c.maxPicture, room);
          var size, read := InflatedSize(part, limit);
          pictureBytesRead := pictureBytesRead + read;
          if size.None? {
            return if limit == c.maxPicture then PictureTooLarge else PicturesTooLarge, pictureBytesRead;
          }
          media := SatAdd(media, size.value);
        case SharedStrings(part, binary) =>
          var scan := ScanSharedStrings(part, binary, c.maxSharedStrings);
          match scan {
            case OverLimit => return TableTooLarge, pictureBytesRead;
            case Malformed => return TableMalformed, pictureBytesRead;
            case Estimate(bytes) => strings := SatAdd(strings, bytes);
          }
      }
    }
    assert entries[..|entries|] == entries;
    r := Inflated(media, strings);
  }

  /** Refused at some entry is refused. */
  lemma Refused(c: Limits, entries: seq<Entry>, k: nat)
    requires k < |entries|
    ensures !Inspected(c, entries[..k + 1]).Inflated? ==> Inspected(c, entries) == Inspected(c, entries[..k + 1])
    decreases |entries|
  {
    if k + 1 == |entries| {
      assert entries[..k + 1] == entries;
    } else {
      var n := |entries| - 1;
      assert entries[..n][..k + 1] == entries[..k + 1];
      Refused(c, entries[..n], k);
    }
  }
}
