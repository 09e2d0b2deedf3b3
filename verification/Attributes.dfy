/** Reading a number out of a raw start tag (`src/archive.rs`, `find`,
    `attr_u64` and `declared_unique_count`; the `sst` element is that of
    section 18.4.9 of ECMA-376 Part 1). */
module Attributes {
  import opened Sequences

  // ---- find ----

  predicate Occurs(haystack: Bytes, needle: Bytes, at: nat) {
    at + |needle| <= |haystack| && haystack[at..at + |needle|] == needle
  }

  function FindFrom(haystack: Bytes, needle: Bytes, from: nat): (r: Option<nat>)
    ensures r.Some? ==> from <= r.value && Occurs(haystack, needle, r.value)
    ensures forall k :: from <= k && (r.Some? ==> k < r.value) ==> !Occurs(haystack, needle, k)
    decreases |haystack| - from
  {
    if from + |needle| > |haystack| then None
    else if haystack[from..from + |needle|] == needle then Some(from)
    else FindFrom(haystack, needle, from + 1)
  }

  /** Where `needle` occurs first, if anywhere; an empty one never does. */
  function Find(haystack: Bytes, needle: Bytes): (r: Option<nat>)
    ensures r.Some? ==> needle != [] && Occurs(haystack, needle, r.value)
    ensures needle != [] ==> forall k: nat :: (r.Some? ==> k < r.value) ==> !Occurs(haystack, needle, k)
  {
    if needle == [] then None else FindFrom(haystack, needle, 0)
  }

  // ---- characters ----

  const LESS: byte := 60
  const EQUALS: byte := 61
  const GREATER: byte := 62
  const SLASH: byte := 47

  predicate IsSpace(b: byte) {
    b == 9 || b == 10 || b == 12 || b == 13 || b == 32
  }

  predicate IsDigit(b: byte) {
    48 <= b <= 57
  }

  predicate IsAlphanumeric(b: byte) {
    IsDigit(b) || 65 <= b <= 90 || 97 <= b <= 122
  }

  predicate IsQuote(b: byte) {
    b == 34 || b == 39
  }

  // ---- a quoted number ----

  /** The value of the digits in a text, whatever else is between them. */
  function Value(text: Bytes): nat {
    if text == [] then 0
    else
      var last := text[|text| - 1];
      if IsDigit(last) then 10 * Value(text[..|text| - 1]) + (last - 48) else Value(text[..|text| - 1])
  }

  /** The same, in saturating 64-bit steps. */
  function SatValue(text: Bytes): nat {
    if text == [] then 0
    else
      var last := text[|text| - 1];
      var before := SatValue(text[..|text| - 1]);
      if IsDigit(last) then SatAdd(SatMul(before, 10), last - 48) else before
  }

  predicate HasDigit(text: Bytes) {
    exists k :: 0 <= k < |text| && IsDigit(text[k])
  }

  /** Saturating at every step saturates the whole. */
  lemma {:induction false} SaturatesOnce(text: Bytes)
    ensures SatValue(text) == Min(Value(text), U64_MAX)
  {
    if text == [] {
    } else {
      SaturatesOnce(text[..|text| - 1]);
    }
  }

  /** What is no digit is passed over, wherever it stands in a number. */
  lemma {:induction false} OthersArePassedOver(a: Bytes, other: byte, b: Bytes)
    requires !(48 <= other <= 57)
    ensures Value(a + [other] + b) == Value(a + b)
  {
    if b == [] {
      assert (a + [other])[..|a|] == a && a + [other] + b == a + [other] && a + b == a;
    } else {
      var n := |b| - 1;
      assert (a + [other] + b)[..|a| + 1 + n] == a + [other] + b[..n];
      assert (a + b)[..|a| + n] == a + b[..n];
      OthersArePassedOver(a, other, b[..n]);
    }
  }

  /** A number as it is printed. */
  function Decimal(n: nat): (r: Bytes)
    ensures r != [] && forall k :: 0 <= k < |r| ==> IsDigit(r[k])
  {
    if n < 10 then [48 + n] else Decimal(n / 10) + [48 + n % 10]
  }

  lemma {:induction false} DecimalValue(n: nat)
    ensures Value(Decimal(n)) == n
  {
    if n < 10 {
      assert [48 + n][..0] == [];
    } else {
      DecimalValue(n / 10);
      var init: Bytes := Decimal(n / 10);
      assert (init + [48 + n % 10])[..|init|] == init;
    }
  }

  // ---- an attribute ----

  function SkipSpaces(tag: Bytes, j: nat): (k: nat)
    requires j <= |tag|
    ensures j <= k <= |tag|
    ensures forall i :: j <= i < k ==> IsSpace(tag[i])
    ensures k < |tag| ==> !IsSpace(tag[k])
    decreases |tag| - j
  {
    if j < |tag| && IsSpace(tag[j]) then SkipSpaces(tag, j + 1) else j
  }

  /** Where a quoted value ends: at its quote, or with the tag. */
  function QuoteEnd(tag: Bytes, j: nat, quote: byte): (k: nat)
    requires j <= |tag|
    ensures j <= k <= |tag|
    ensures forall i :: j <= i < k ==> tag[i] != quote
    ensures k < |tag| ==> tag[k] == quote
    decreases |tag| - j
  {
    if j == |tag| || tag[j] == quote then j else QuoteEnd(tag, j + 1, quote)
  }

  /** Where a value begins: after `=` and a quote, spaces allowed around. */
  function ValueStart(tag: Bytes, j: nat): (k: Option<nat>)
    requires j <= |tag|
    ensures k.Some? ==> j + 2 <= k.value <= |tag| && IsQuote(tag[k.value - 1])
  {
    var e := SkipSpaces(tag, j);
    if e == |tag| || tag[e] != EQUALS then None
    else
      var q := SkipSpaces(tag, e + 1);
      if q == |tag| || !IsQuote(tag[q]) then None else Some(q + 1)
  }

  /** The number that follows an attribute's name, if one does. */
  function NumberAfter(tag: Bytes, j: nat): Option<nat>
    requires j <= |tag|
  {
    match ValueStart(tag, j)
    case None => None
    case Some(k) =>
      var text := tag[k..QuoteEnd(tag, k, tag[k - 1])];
      if HasDigit(text) then Some(SatValue(text)) else None
  }

  /** The text of the quoted value that follows a name: between a quote after
      an equals sign, with only spaces around the sign, and the next such quote,
      or the end of the tag. */
  ghost predicate QuotedAt(tag: Bytes, j: nat, e: nat, q: nat, end: nat) {
    && j <= e < q < end <= |tag|
    && (forall i :: j <= i < e || e < i < q ==> tag[i] in {9, 10, 12, 13, 32})
    && tag[e] == 61 && (tag[q] == 34 || tag[q] == 39)
    && (forall i :: q < i < end ==> tag[i] != tag[q])
    && (end < |tag| ==> tag[end] == tag[q])
  }

  /** A number follows a name exactly when a quoted value does that has a digit,
      and it is the value of its digits, cut to 64 bits. */
  lemma {:induction false} NumberIs(tag: Bytes, j: nat)
    requires j <= |tag|
    ensures NumberAfter(tag, j).Some? ==>
              exists e: nat, q: nat, end: nat ::
                && QuotedAt(tag, j, e, q, end)
                && (exists d :: q < d < end && 48 <= tag[d] <= 57)
                && NumberAfter(tag, j).value == Min(Value(tag[q + 1..end]), U64_MAX)
    ensures NumberAfter(tag, j).None? ==>
              forall e: nat, q: nat, end: nat :: QuotedAt(tag, j, e, q, end) ==>
                forall d :: q < d < end ==> !(48 <= tag[d] <= 57)
  {
    hide SatValue, Value;
    if NumberAfter(tag, j).Some? {
      hide NumberAfter, QuotedAt;
      var e, q, end := NumberThere(tag, j);
    } else {
      hide NumberAfter, QuotedAt;
      forall e: nat, q: nat, end: nat | QuotedAt(tag, j, e, q, end)
        ensures forall d :: q < d < end ==> !(48 <= tag[d] <= 57)
      {
        NoDigitThere(tag, j, e, q, end);
      }
    }
  }

  lemma NumberThere(tag: Bytes, j: nat) returns (e: nat, q: nat, end: nat)
    requires j <= |tag| && NumberAfter(tag, j).Some?
    ensures QuotedAt(tag, j, e, q, end)
    ensures exists d :: q < d < end && 48 <= tag[d] <= 57
    ensures NumberAfter(tag, j).value == Min(Value(tag[q + 1..end]), U64_MAX)
  {
    hide SatValue, Value;
    e := SkipSpaces(tag, j);
    q := SkipSpaces(tag, e + 1);
    end := QuoteEnd(tag, q + 1, tag[q]);
    DigitThere(tag, q + 1, end);
    SaturatesOnce(tag[q + 1..end]);
  }

  lemma DigitThere(tag: Bytes, from: nat, end: nat)
    requires from <= end <= |tag| && HasDigit(tag[from..end])
    ensures exists d :: from <= d < end && 48 <= tag[d] <= 57
  {
    var d :| 0 <= d < |tag[from..end]| && IsDigit(tag[from..end][d]);
    assert tag[from + d] == tag[from..end][d];
  }

  lemma NoDigitThere(tag: Bytes, j: nat, e: nat, q: nat, end: nat)
    requires QuotedAt(tag, j, e, q, end) && NumberAfter(tag, j).None?
    ensures forall d :: q < d < end ==> !(48 <= tag[d] <= 57)
  {
    hide SatValue;
    assert SkipSpaces(tag, j) == e;
    assert SkipSpaces(tag, e + 1) == q;
    assert QuoteEnd(tag, q + 1, tag[q]) == end;
    forall d | q < d < end
      ensures !IsDigit(tag[d])
    {
      assert tag[d] == tag[q + 1..end][d - q - 1];
    }
  }

  /** A real attribute, not the tail of a longer name. */
  predicate WholeName(tag: Bytes, at: nat)
    requires at <= |tag|
  {
    at == 0 || !IsAlphanumeric(tag[at - 1])
  }

  /** `attr_u64`, from a position on: the first occurrence of the name that is
      a whole name with a number after it. */
  function AttrFrom(tag: Bytes, name: Bytes, from: nat): Option<nat>
    requires from <= |tag|
    decreases |tag| - from
  {
    match Find(tag[from..], name)
    case None => None
    case Some(rel) =>
      var at := from + rel;
      var next := at + |name|;
      if WholeName(tag, at) && NumberAfter(tag, next).Some? then NumberAfter(tag, next)
      else AttrFrom(tag, name, next)
  }

  /** A whole name with a number after it. */
  predicate Usable(tag: Bytes, name: Bytes, at: nat) {
    Occurs(tag, name, at) && WholeName(tag, at) && NumberAfter(tag, at + |name|).Some?
  }

  predicate NoneUsable(tag: Bytes, name: Bytes, from: nat, end: nat) {
    forall k :: from <= k < end ==> !Usable(tag, name, k)
  }

  predicate AllAlphanumeric(name: Bytes) {
    name != [] && forall k :: 0 <= k < |name| ==> IsAlphanumeric(name[k])
  }

  lemma OccursInTail(tag: Bytes, from: nat, name: Bytes, k: nat)
    requires from <= |tag|
    ensures Occurs(tag[from..], name, k) <==> Occurs(tag, name, from + k)
  {
    if from + k + |name| <= |tag| {
      assert tag[from..][k..k + |name|] == tag[from + k..from + k + |name|];
    }
  }

  /** No occurrence that the search passes over is usable, be it one that
      overlaps the one before. */
  lemma PassedOver(tag: Bytes, name: Bytes, from: nat, rel: nat)
    requires AllAlphanumeric(name) && from <= |tag| && Find(tag[from..], name) == Some(rel)
    ensures from + rel + |name| <= |tag| && Occurs(tag, name, from + rel)
    ensures NoneUsable(tag, name, from, from + rel)
    ensures NoneUsable(tag, name, from + rel + 1, from + rel + |name|)
  {
    hide NumberAfter;
    var at := from + rel;
    OccursInTail(tag, from, name, rel);
    forall k | from <= k < at
      ensures !Usable(tag, name, k)
    {
      OccursInTail(tag, from, name, k - from);
    }
    forall k | at < k < at + |name|
      ensures !Usable(tag, name, k)
    {
      assert tag[k - 1] == tag[at..at + |name|][k - 1 - at] == name[k - 1 - at];
    }
  }

  lemma NowhereUsable(tag: Bytes, name: Bytes, from: nat)
    requires AllAlphanumeric(name) && from <= |tag| && Find(tag[from..], name).None?
    ensures NoneUsable(tag, name, from, |tag| + 1)
  {
    hide NumberAfter;
    forall k | from <= k <= |tag|
      ensures !Usable(tag, name, k)
    {
      OccursInTail(tag, from, name, k - from);
    }
  }

  lemma AttrStep(tag: Bytes, name: Bytes, from: nat, rel: nat)
    requires from <= |tag| && Find(tag[from..], name) == Some(rel)
    requires from + rel + |name| <= |tag| && Occurs(tag, name, from + rel)
    ensures AttrFrom(tag, name, from) ==
            if Usable(tag, name, from + rel) then NumberAfter(tag, from + rel + |name|)
            else AttrFrom(tag, name, from + rel + |name|)
  {
    hide NumberAfter, Occurs;
  }

  /** The tail of a longer name is never taken for the name. */
  lemma {:induction false} TailsAreNotUsable(tag: Bytes, name: Bytes, at: nat)
    requires 0 < at <= |tag|
    requires 48 <= tag[at - 1] <= 57 || 65 <= tag[at - 1] <= 90 || 97 <= tag[at - 1] <= 122
    ensures !Usable(tag, name, at)
  {
    hide NumberAfter;
  }

  lemma UsableInside(tag: Bytes, name: Bytes)
    ensures forall k: nat :: Usable(tag, name, k) ==> k + |name| <= |tag| && NumberAfter(tag, k + |name|).Some?
  {
    hide NumberAfter;
  }

  /** The search from the first usable position, or over none. */
  ghost predicate ReadsFirst(tag: Bytes, name: Bytes, from: nat)
    requires from <= |tag|
  {
    && (AttrFrom(tag, name, from).None? <==> NoneUsable(tag, name, from, |tag| + 1))
    && forall k :: from <= k && Usable(tag, name, k) && NoneUsable(tag, name, from, k) ==>
                     k + |name| <= |tag| && AttrFrom(tag, name, from) == NumberAfter(tag, k + |name|)
  }

  /** A name without punctuation is read at the first position where it is
      usable, and not at all when there is none. */
  lemma {:induction false} AttrIsFirstUsable(tag: Bytes, name: Bytes, from: nat)
    requires AllAlphanumeric(name) && from <= |tag|
    ensures ReadsFirst(tag, name, from)
    decreases |tag| - from
  {
    hide NumberAfter, Find, WholeName, Usable, Occurs, AllAlphanumeric, ReadsFirst;
    match Find(tag[from..], name) {
      case None =>
        NowhereUsable(tag, name, from);
        ReadsNothing(tag, name, from);
      case Some(rel) =>
        PassedOver(tag, name, from, rel);
        AttrStep(tag, name, from, rel);
        hide AttrFrom, NoneUsable;
        if Usable(tag, name, from + rel) {
          ReadsHere(tag, name, from, from + rel);
        } else {
          AttrIsFirstUsable(tag, name, from + rel + |name|);
          ReadsLater(tag, name, from, from + rel);
        }
    }
  }

  lemma ReadsNothing(tag: Bytes, name: Bytes, from: nat)
    requires from <= |tag| && AttrFrom(tag, name, from).None? && NoneUsable(tag, name, from, |tag| + 1)
    ensures ReadsFirst(tag, name, from)
  {
    hide NumberAfter, AttrFrom, Usable;
    UsableInside(tag, name);
  }

  lemma ReadsHere(tag: Bytes, name: Bytes, from: nat, at: nat)
    requires from <= at && at + |name| <= |tag| && Usable(tag, name, at) && NoneUsable(tag, name, from, at)
    requires AttrFrom(tag, name, from) == NumberAfter(tag, at + |name|)
    ensures ReadsFirst(tag, name, from)
  {
    hide NumberAfter, AttrFrom, Usable;
    UsableInside(tag, name);
  }

  lemma ReadsLater(tag: Bytes, name: Bytes, from: nat, at: nat)
    requires from <= at && at + |name| <= |tag| && !Usable(tag, name, at)
    requires NoneUsable(tag, name, from, at) && NoneUsable(tag, name, at + 1, at + |name|)
    requires AttrFrom(tag, name, from) == AttrFrom(tag, name, at + |name|) && ReadsFirst(tag, name, at + |name|)
    ensures ReadsFirst(tag, name, from)
  {
    hide NumberAfter, AttrFrom, Usable;
  }

  method AttrU64(tag: Bytes, name: Bytes) returns (r: Option<nat>)
    ensures r == AttrFrom(tag, name, 0)
  {
    hide NumberAfter;
    assert tag[0..] == tag;
    var from := 0;
    while true
      invariant from <= |tag|
      invariant AttrFrom(tag, name, from) == AttrFrom(tag, name, 0)
      decreases |tag| - from
    {
      var rel := Find(tag[from..], name);
      if rel.None? {
        return None;
      }
      var at := from + rel.value;
      from := at + |name|;
      if at > 0 && IsAlphanumeric(tag[at - 1]) {
        continue;
      }
      r := ReadNumber(tag, from);
      if r.Some? {
        return;
      }
    }
  }

  /** `=`, a quote, and the digits up to the closing one. */
  method ReadNumber(tag: Bytes, from: nat) returns (r: Option<nat>)
    requires from <= |tag|
    ensures r == NumberAfter(tag, from)
  {
    hide HasDigit, SatValue;
    var j := SkipOver(tag, from);
    if j == |tag| || tag[j] != EQUALS {
      return None;
    }
    j := SkipOver(tag, j + 1);
    if j == |tag| || !IsQuote(tag[j]) {
      return None;
    }
    var value, any := ReadDigits(tag, j + 1, tag[j]);
    return if any then Some(value) else None;
  }

  method SkipOver(tag: Bytes, from: nat) returns (j: nat)
    requires from <= |tag|
    ensures j == SkipSpaces(tag, from)
  {
    j := from;
    while j < |tag| && IsSpace(tag[j])
      invariant j <= |tag|
      invariant SkipSpaces(tag, j) == SkipSpaces(tag, from)
    {
      j := j + 1;
    }
  }

  method ReadDigits(tag: Bytes, from: nat, quote: byte) returns (value: nat, any: bool)
    requires from <= |tag|
    ensures value == SatValue(tag[from..QuoteEnd(tag, from, quote)])
    ensures any <==> HasDigit(tag[from..QuoteEnd(tag, from, quote)])
  {
    hide SatValue, HasDigit;
    value, any := 0, false;
    var j := from;
    NoText();
    assert tag[from..from] == [];
    while j < |tag| && tag[j] != quote
      invariant from <= j <= |tag| && QuoteEnd(tag, j, quote) == QuoteEnd(tag, from, quote)
      invariant value == SatValue(tag[from..j])
      invariant any <==> HasDigit(tag[from..j])
    {
      MoreText(tag[from..j], tag[j]);
      assert tag[from..j + 1] == tag[from..j] + [tag[j]];
      if IsDigit(tag[j]) {
        value := SatAdd(SatMul(value, 10), tag[j] - 48);
        any := true;
      }
      j := j + 1;
    }
  }

  lemma NoText()
    ensures SatValue([]) == 0 && !HasDigit([])
  {
  }

  lemma MoreText(text: Bytes, b: byte)
    ensures SatValue(text + [b]) == if IsDigit(b) then SatAdd(SatMul(SatValue(text), 10), b - 48) else SatValue(text)
    ensures HasDigit(text + [b]) <==> HasDigit(text) || IsDigit(b)
  {
    var more := text + [b];
    assert more[..|text|] == text && more[|text|] == b;
    if k :| 0 <= k < |text| && IsDigit(text[k]) {
      assert IsDigit(more[k]);
    }
  }

  // ---- what is written is read ----

  predicate Spaces(s: Bytes) {
    forall k :: 0 <= k < |s| ==> IsSpace(s[k])
  }

  /** An attribute's value as it is written: `=` and a quoted number, with
      spaces around the sign. */
  function Written(before: Bytes, after: Bytes, quote: byte, n: nat): Bytes {
    before + [EQUALS] + after + [quote] + Decimal(n) + [quote]
  }

  /** The number an attribute prints is read back, cut to 64 bits, when its name
      is not the tail of a longer one and no usable one comes sooner. */
  lemma {:induction false} PrintedNumberIsRead(front: Bytes, name: Bytes, before: Bytes, after: Bytes,
                                               quote: byte, n: nat, rest: Bytes)
    requires AllAlphanumeric(name) && Spaces(before) && Spaces(after) && IsQuote(quote)
    requires front == [] || !IsAlphanumeric(front[|front| - 1])
    requires NoneUsable(front + name + Written(before, after, quote, n) + rest, name, 0, |front|)
    ensures AttrFrom(front + name + Written(before, after, quote, n) + rest, name, 0) == Some(Min(n, U64_MAX))
  {
    hide Written, NumberAfter, AttrFrom, AllAlphanumeric, NoneUsable;
    var value := Written(before, after, quote, n);
    var tag := front + name + value + rest;
    assert tag == front + name + (value + rest);
    assert tag[|front|..|front| + |name|] == name;
    assert front != [] ==> tag[|front| - 1] == front[|front| - 1];
    ValueIsRead(front + name, before, after, quote, n, rest);
    assert Usable(tag, name, |front|);
    AttrIsFirstUsable(tag, name, 0);
  }

  /** Spaces written somewhere in a tag are spaces there. */
  lemma SpacesAt(tag: Bytes, at: nat, spaces: Bytes)
    requires Occurs(tag, spaces, at) && Spaces(spaces)
    ensures forall i :: at <= i < at + |spaces| ==> IsSpace(tag[i])
  {
    forall i | at <= i < at + |spaces|
      ensures IsSpace(tag[i])
    {
      assert tag[i] == tag[at..at + |spaces|][i - at];
    }
  }

  lemma ValueIsRead(front: Bytes, before: Bytes, after: Bytes, quote: byte, n: nat, rest: Bytes)
    requires Spaces(before) && Spaces(after) && IsQuote(quote)
    ensures NumberAfter(front + Written(before, after, quote, n) + rest, |front|) == Some(Min(n, U64_MAX))
  {
    hide Decimal, SatValue, Value, Spaces, Occurs, Written, SkipSpaces, QuoteEnd, ValueStart;
    var tag, digits := front + Written(before, after, quote, n) + rest, Decimal(n);
    var e := |front| + |before|;
    var q := e + 1 + |after|;
    PiecesOccur(front, before, after, quote, n, rest);
    OneByte(tag, EQUALS, e);
    OneByte(tag, quote, q);
    OneByte(tag, quote, q + 1 + |digits|);
    SpacesAt(tag, |front|, before);
    SpacesAt(tag, e + 1, after);
    StartsThere(tag, |front|, e, q);
    DigitsEnd(tag, q + 1, digits, quote);
    SaturatesOnce(digits);
    DecimalValue(n);
    assert IsDigit(digits[0]);
  }

  lemma StartsThere(tag: Bytes, j: nat, e: nat, q: nat)
    requires j <= e < q < |tag| && tag[e] == EQUALS && IsQuote(tag[q])
    requires forall i :: j <= i < e || e < i < q ==> IsSpace(tag[i])
    ensures ValueStart(tag, j) == Some(q + 1)
  {
    assert SkipSpaces(tag, j) == e;
    assert SkipSpaces(tag, e + 1) == q;
  }

  lemma OneByte(tag: Bytes, b: byte, at: nat)
    requires Occurs(tag, [b], at)
    ensures at < |tag| && tag[at] == b
  {
    assert tag[at..at + 1][0] == b;
  }

  lemma DigitsEnd(tag: Bytes, j: nat, digits: Bytes, quote: byte)
    requires Occurs(tag, digits, j) && j + |digits| < |tag| && tag[j + |digits|] == quote && IsQuote(quote)
    requires forall k :: 0 <= k < |digits| ==> IsDigit(digits[k])
    ensures tag[j..QuoteEnd(tag, j, quote)] == digits
  {
    forall i | j <= i < j + |digits|
      ensures tag[i] != quote
    {
      assert tag[i] == tag[j..j + |digits|][i - j] == digits[i - j];
    }
    assert QuoteEnd(tag, j, quote) == j + |digits|;
  }

  lemma OccursLonger(buf: Bytes, more: Bytes, piece: Bytes, at: nat)
    requires Occurs(buf, piece, at)
    ensures Occurs(buf + more, piece, at)
  {
    assert (buf + more)[at..at + |piece|] == buf[at..at + |piece|];
  }

  lemma OccursLater(front: Bytes, buf: Bytes, piece: Bytes, at: nat)
    requires Occurs(buf, piece, at)
    ensures Occurs(front + buf, piece, |front| + at)
  {
    assert (front + buf)[|front| + at..|front| + at + |piece|] == buf[at..at + |piece|];
  }

  lemma OccursInside(front: Bytes, buf: Bytes, rest: Bytes, piece: Bytes, at: nat)
    requires Occurs(buf, piece, at)
    ensures Occurs(front + buf + rest, piece, |front| + at)
  {
    OccursLater(front, buf, piece, at);
    OccursLonger(front + buf, rest, piece, |front| + at);
  }

  lemma PiecesOccur(front: Bytes, before: Bytes, after: Bytes, quote: byte, n: nat, rest: Bytes)
    ensures var tag, digits := front + Written(before, after, quote, n) + rest, Decimal(n);
            var e := |front| + |before|;
            var q := e + 1 + |after|;
            && Occurs(tag, before, |front|) && Occurs(tag, [EQUALS], e) && Occurs(tag, after, e + 1)
            && Occurs(tag, [quote], q) && Occurs(tag, digits, q + 1) && Occurs(tag, [quote], q + 1 + |digits|)
  {
    hide Occurs, Decimal;
    var w := Written(before, after, quote, n);
    var digits := Decimal(n);
    var w1 := before + [EQUALS];
    var w2 := w1 + after;
    var w3 := w2 + [quote];
    var w4 := w3 + digits;
    assert w == w4 + [quote];
    assert [] + before == before;
    OccursLonger(before, [EQUALS], before, 0);
    Lengthen(w1, after, before, 0, [EQUALS], |before|);
    Lengthen(w2, [quote], before, 0, [EQUALS], |before|);
    OccursLonger(w2, [quote], after, |w1|);
    Lengthen(w3, digits, before, 0, [EQUALS], |before|);
    Lengthen(w3, digits, after, |w1|, [quote], |w2|);
    Lengthen(w4, [quote], before, 0, [EQUALS], |before|);
    Lengthen(w4, [quote], after, |w1|, [quote], |w2|);
    OccursLonger(w4, [quote], digits, |w3|);
    OccursInside(front, w, rest, before, 0);
    OccursInside(front, w, rest, [EQUALS], |before|);
    OccursInside(front, w, rest, after, |w1|);
    OccursInside(front, w, rest, [quote], |w2|);
    OccursInside(front, w, rest, digits, |w3|);
    OccursInside(front, w, rest, [quote], |w4|);
  }

  lemma Lengthen(buf: Bytes, more: Bytes, x: Bytes, i: nat, y: Bytes, j: nat)
    requires Occurs(buf, x, i) && Occurs(buf, y, j)
    ensures Occurs(buf + more, x, i) && Occurs(buf + more, y, j)
  {
    OccursLonger(buf, more, x, i);
    OccursLonger(buf, more, y, j);
  }

  // ---- the sst root ----

  const SST: Bytes := [60, 115, 115, 116]
  const UNIQUE_COUNT: Bytes := [117, 110, 105, 113, 117, 101, 67, 111, 117, 110, 116]

  /** What the table's root tag declares: a number only when the first `<sst` of
      the head is that whole name, its tag closes in the head, and a usable
      attribute lies between. */
  function DeclaredUniqueCount(head: Bytes): Option<nat> {
    match Find(head, SST)
    case None => None
    case Some(open) =>
      if open + 4 >= |head| then None
      else
        var after := head[open + 4];
        if !(after == GREATER || after == SLASH || IsSpace(after)) then None
        else
          match Find(head[open + 4..], [GREATER])
          case None => None
          case Some(rel) => AttrFrom(head[open..open + 4 + rel + 1], UNIQUE_COUNT, 0)
  }

  /** What was usable stays so when the tag goes on. */
  lemma UsableLonger(tag: Bytes, more: Bytes, name: Bytes, at: nat)
    requires Usable(tag, name, at)
    ensures Usable(tag + more, name, at)
  {
    hide NumberAfter;
    var next := at + |name|;
    assert (tag + more)[at..next] == tag[at..next];
    NumberLonger(tag, more, next);
  }

  lemma NumberLonger(tag: Bytes, more: Bytes, j: nat)
    requires j <= |tag| && NumberAfter(tag, j).Some?
    ensures NumberAfter(tag + more, j).Some?
  {
    hide SatValue, ValueStart, HasDigit;
    StartLonger(tag, more, j);
    var k := ValueStart(tag, j).value;
    var end, longer := QuoteEnd(tag, k, tag[k - 1]), QuoteEnd(tag + more, k, tag[k - 1]);
    assert (tag + more)[k - 1] == tag[k - 1];
    assert forall i :: 0 <= i < |tag| ==> (tag + more)[i] == tag[i];
    assert (tag + more)[k..longer] == tag[k..end] + (tag + more)[end..longer];
    DigitLonger(tag[k..end], (tag + more)[end..longer]);
  }

  lemma DigitLonger(text: Bytes, more: Bytes)
    requires HasDigit(text)
    ensures HasDigit(text + more)
  {
    var k :| 0 <= k < |text| && IsDigit(text[k]);
    assert IsDigit((text + more)[k]);
  }

  lemma StartLonger(tag: Bytes, more: Bytes, j: nat)
    requires j <= |tag| && ValueStart(tag, j).Some?
    ensures ValueStart(tag + more, j) == ValueStart(tag, j)
  {
    var e := SkipSpaces(tag, j);
    SpacesLonger(tag, more, j);
    SpacesLonger(tag, more, e + 1);
  }

  lemma SpacesLonger(tag: Bytes, more: Bytes, j: nat)
    requires j <= |tag| && SkipSpaces(tag, j) < |tag|
    ensures SkipSpaces(tag + more, j) == SkipSpaces(tag, j)
  {
    assert forall i :: 0 <= i < |tag| ==> (tag + more)[i] == tag[i];
  }

  lemma NoneUsableShorter(tag: Bytes, more: Bytes, name: Bytes, end: nat)
    requires NoneUsable(tag + more, name, 0, end)
    ensures NoneUsable(tag, name, 0, end)
  {
    hide Usable;
    forall k | 0 <= k < end && Usable(tag, name, k)
      ensures false
    {
      UsableLonger(tag, more, name, k);
    }
  }

  /** The tag that is searched: up to the first `>` after `<sst`, wherever that
      is, when `<sst` is a whole name. */
  lemma RootTag(prolog: Bytes, root: Bytes, cut: nat)
    requires forall k :: 0 <= k < |prolog| ==> !Occurs(prolog + SST + root, SST, k)
    requires cut <= |root| && (forall k :: 0 <= k < cut ==> root[k] != GREATER)
    requires cut < |root| ==> root[cut] == GREATER
    ensures DeclaredUniqueCount(prolog + SST + root) ==
            if root == [] || !(root[0] == GREATER || root[0] == SLASH || IsSpace(root[0])) || cut == |root| then None
            else AttrFrom(SST + root[..cut + 1], UNIQUE_COUNT, 0)
  {
    hide AttrFrom, Find;
    var head := prolog + SST + root;
    assert head[|prolog|..|prolog| + 4] == SST;
    FirstOccurrence(head, SST, |prolog|);
    assert head[|prolog| + 4..] == root;
    if cut < |root| {
      ByteFound(root, GREATER, cut);
      assert head[|prolog|..|prolog| + 4 + cut + 1] == SST + root[..cut + 1];
    } else {
      ByteNowhere(root, GREATER);
    }
  }

  /** A `>` in front of the count ends the searched tag before it. */
  lemma CutIsUnread(front: Bytes, cut: nat, more: Bytes)
    requires cut < |front| && NoneUsable(SST + (front + more), UNIQUE_COUNT, 0, 4 + |front|)
    ensures AttrFrom(SST + (front + more)[..cut + 1], UNIQUE_COUNT, 0) == None
  {
    hide Usable, AttrFrom;
    var root := front + more;
    var tag := SST + root[..cut + 1];
    assert SST + root == tag + root[cut + 1..];
    NoneUsableShorter(tag, root[cut + 1..], UNIQUE_COUNT, 4 + |front|);
    AttrIsFirstUsable(tag, UNIQUE_COUNT, 0);
  }

  lemma FirstOf(text: Bytes, b: byte) returns (cut: nat)
    ensures cut <= |text| && forall k :: 0 <= k < cut ==> text[k] != b
    ensures cut < |text| ==> text[cut] == b
    ensures cut < |text| <==> b in text
  {
    cut := QuoteEnd(text, 0, b);
  }

  lemma NoGreaterWritten(before: Bytes, after: Bytes, quote: byte, n: nat)
    requires Spaces(before) && Spaces(after) && IsQuote(quote)
    ensures GREATER !in UNIQUE_COUNT + Written(before, after, quote, n)
  {
    hide Decimal;
    assert GREATER !in before && GREATER !in after && GREATER !in Decimal(n);
  }

  /** With no `>` in front of it the count is in the searched tag. */
  lemma UncutIsRead(front: Bytes, before: Bytes, after: Bytes, quote: byte, n: nat, rest: Bytes, cut: nat)
    requires Spaces(before) && Spaces(after) && IsQuote(quote)
    requires front != [] && !IsAlphanumeric(front[|front| - 1])
    requires var root := front + UNIQUE_COUNT + Written(before, after, quote, n);
             && |root| <= cut < |root + rest|
             && NoneUsable(SST + (root + rest), UNIQUE_COUNT, 0, 4 + |front|)
    ensures var root := front + UNIQUE_COUNT + Written(before, after, quote, n);
            AttrFrom(SST + (root + rest)[..cut + 1], UNIQUE_COUNT, 0) == Some(Min(n, U64_MAX))
  {
    hide Usable, AttrFrom, Written;
    var value := Written(before, after, quote, n);
    var root := front + UNIQUE_COUNT + value;
    var kept, more := rest[..cut + 1 - |root|], rest[cut + 1 - |root|..];
    var tag := SST + front + UNIQUE_COUNT + value + kept;
    assert tag == SST + (root + rest)[..cut + 1];
    assert tag + more == SST + (root + rest);
    NoneUsableShorter(tag, more, UNIQUE_COUNT, 4 + |front|);
    PrintedNumberIsRead(SST + front, UNIQUE_COUNT, before, after, quote, n, kept);
  }

  function Ascii(text: string): (bytes: Bytes)
    requires forall k :: 0 <= k < |text| ==> text[k] < 128 as char
    ensures |bytes| == |text| && forall k :: 0 <= k < |text| ==> bytes[k] == text[k] as int
  {
    seq(|text|, k requires 0 <= k < |text| => text[k] as int)
  }

  /** What the two names spell. */
  lemma {:induction false} NamesSpell()
    ensures SST == Ascii("<sst") && UNIQUE_COUNT == Ascii("uniqueCount")
  {
    assert Ascii("<sst") == [60, 115, 115, 116];
    assert Ascii("uniqueCount") == [117, 110, 105, 113, 117, 101, 67, 111, 117, 110, 116];
  }

  /** A head with an `<sst>` element in it, the count among its attributes. */
  datatype CountText = CountText(
    prolog: Bytes,
    front: Bytes,
    before: Bytes,
    after: Bytes,
    quote: byte,
    n: nat,
    rest: Bytes)

  /** The element's own text, from its first attribute on. */
  function RootOf(c: CountText): Bytes {
    c.front + UNIQUE_COUNT + Written(c.before, c.after, c.quote, c.n) + c.rest
  }

  function HeadOf(c: CountText): Bytes {
    c.prolog + SST + RootOf(c)
  }

  /** It is the first such element, and its count the first usable one. */
  predicate CountsFirst(c: CountText) {
    && Spaces(c.before) && Spaces(c.after) && IsQuote(c.quote)
    && (c.front != [] ==> !IsAlphanumeric(c.front[|c.front| - 1]))
    && (forall k :: 0 <= k < |c.prolog| ==> !Occurs(HeadOf(c), SST, k))
    && NoneUsable(SST + RootOf(c), UNIQUE_COUNT, 0, 4 + |c.front|)
  }

  /** The element's name is followed by a space or a slash, no `>` stands
      between it and the count, not even in a quoted value, and one stands after
      the count. */
  predicate CountShows(c: CountText) {
    c.front != [] && c.front[0] in {9, 10, 12, 13, 32, 47} && 62 !in c.front && 62 in c.rest
  }

  /** The count that the first `<sst>` element of a head prints is read back,
      cut to 64 bits, exactly when it shows. */
  lemma {:induction false} PrintedCountIsRead(c: CountText)
    requires CountsFirst(c)
    ensures DeclaredUniqueCount(HeadOf(c)) == if CountShows(c) then Some(Min(c.n, U64_MAX)) else None
  {
    hide AttrFrom, Usable, NoneUsable, DeclaredUniqueCount, Occurs, Spaces, Written;
    var value := Written(c.before, c.after, c.quote, c.n);
    var root := RootOf(c);
    var cut := FirstOf(root, GREATER);
    NoGreaterWritten(c.before, c.after, c.quote, c.n);
    assert HeadOf(c) == c.prolog + SST + root;
    RootTag(c.prolog, root, cut);
    assert root == c.front + (UNIQUE_COUNT + value + c.rest) == c.front + (UNIQUE_COUNT + value) + c.rest;
    assert root[0] == if c.front != [] then c.front[0] else UNIQUE_COUNT[0];
    WhereCut(c.front, UNIQUE_COUNT + value, c.rest, GREATER, cut);
    if GREATER in c.front {
      CutIsUnread(c.front, cut, UNIQUE_COUNT + value + c.rest);
    } else if GREATER in c.rest && c.front != [] {
      UncutIsRead(c.front, c.before, c.after, c.quote, c.n, c.rest, cut);
    }
  }

  /** The element `<sst a=">" uniqueCount="..">`, closed. */
  function QuotedGreater(n: nat): CountText {
    CountText([], [32, 97, EQUALS, 34, GREATER, 34, 32], [], [], 34, n, [GREATER])
  }

  /** Its count is not read, whatever it is. */
  lemma {:induction false} QuotedGreaterHides(n: nat)
    ensures CountsFirst(QuotedGreater(n)) && DeclaredUniqueCount(HeadOf(QuotedGreater(n))) == None
  {
    hide Written, NumberAfter, WholeName, DeclaredUniqueCount;
    var c := QuotedGreater(n);
    var root := SST + RootOf(c);
    forall k | 0 <= k < 4 + |c.front|
      ensures !Usable(root, UNIQUE_COUNT, k)
    {
      assert root[k] == (SST + c.front)[k];
      assert root[k] != UNIQUE_COUNT[0];
      NotHere(root, UNIQUE_COUNT, k);
    }
    PrintedCountIsRead(c);
  }

  lemma NotHere(tag: Bytes, name: Bytes, k: nat)
    requires name != [] && k < |tag| && tag[k] != name[0]
    ensures !Occurs(tag, name, k)
  {
    if k + |name| <= |tag| {
      assert tag[k..k + |name|][0] == tag[k];
    }
  }

  /** Where the first `b` is, by which of three pieces has one. */
  lemma WhereCut(front: Bytes, middle: Bytes, rest: Bytes, b: byte, cut: nat)
    requires var all := front + middle + rest;
             && cut <= |all| && (forall k :: 0 <= k < cut ==> all[k] != b) && (cut < |all| ==> all[cut] == b)
    requires b !in middle
    ensures b in front ==> cut < |front|
    ensures b !in front && b in rest ==> |front| + |middle| <= cut < |front + middle + rest|
    ensures b !in front && b !in rest ==> cut == |front + middle + rest|
  {
    var all := front + middle + rest;
    assert forall k :: 0 <= k < |front| ==> all[k] == front[k];
    assert forall k :: 0 <= k < |middle| ==> all[|front| + k] == middle[k];
    assert forall k :: 0 <= k < |rest| ==> all[|front| + |middle| + k] == rest[k];
    if b in front {
      var k :| 0 <= k < |front| && front[k] == b;
      assert all[k] == b;
    } else if b in rest {
      var k :| 0 <= k < |rest| && rest[k] == b;
      assert all[|front| + |middle| + k] == b;
    }
  }

  lemma ByteNowhere(haystack: Bytes, b: byte)
    requires forall k :: 0 <= k < |haystack| ==> haystack[k] != b
    ensures Find(haystack, [b]) == None
  {
    forall k | 0 <= k < |haystack|
      ensures !Occurs(haystack, [b], k)
    {
      assert haystack[k..k + 1][0] == haystack[k];
    }
  }

  lemma FirstOccurrence(haystack: Bytes, needle: Bytes, at: nat)
    requires needle != [] && Occurs(haystack, needle, at) && forall k :: 0 <= k < at ==> !Occurs(haystack, needle, k)
    ensures Find(haystack, needle) == Some(at)
  {
  }

  lemma ByteFound(haystack: Bytes, b: byte, at: nat)
    requires at < |haystack| && haystack[at] == b && forall k :: 0 <= k < at ==> haystack[k] != b
    ensures Find(haystack, [b]) == Some(at)
  {
    assert haystack[at..at + 1] == [b];
    forall k | 0 <= k < at
      ensures !Occurs(haystack, [b], k)
    {
      assert haystack[k..k + 1][0] == haystack[k];
    }
    FirstOccurrence(haystack, [b], at);
  }
}
