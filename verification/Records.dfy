/** Counting the records of a BIFF12 stream fed in pieces (`src/archive.rs`,
    `RecordCounter`; the framing is that of section 2.1.4 of MS-XLSB). */
module Records {
  import opened Sequences

  // ---- shifts and bitwise or, on numbers ----

  function Power2(n: nat): nat {
    if n == 0 then 1 else 2 * Power2(n - 1)
  }

  /** `a | b`. */
  function Or(a: nat, b: nat): nat {
    if a == 0 then b
    else if b == 0 then a
    else Max(a % 2, b % 2) + 2 * Or(a / 2, b / 2)
  }

  lemma OrEven(a: nat, half: nat)
    requires a > 0 && half > 0
    ensures Or(a, 2 * half) == a % 2 + 2 * Or(a / 2, half)
  {
    assert (2 * half) / 2 == half && (2 * half) % 2 == 0;
  }

  /** Numbers that share no bit add up. */
  lemma {:induction false} OrAdds(a: nat, b: nat, n: nat)
    requires a < Power2(n)
    ensures Or(a, b * Power2(n)) == a + b * Power2(n)
  {
    if n == 0 || a == 0 || b * Power2(n) == 0 {
    } else {
      var half := b * Power2(n - 1);
      assert b * Power2(n) == 2 * half;
      OrEven(a, half);
      OrAdds(a / 2, b, n - 1);
    }
  }

  // ---- the counter ----

  /** Where a counter is within the current record. */
  datatype RecordState = Type | TypeSecond | Length(read: nat, len: nat) | Payload(left: nat)

  datatype Counter = Counter(records: nat, state: RecordState)

  const NEW_COUNTER := Counter(0, Type)

  /** Seven bits of a length, put above those already read. */
  function LengthWith(len: nat, read: nat, b: byte): nat {
    Or(len, (b % 128) * Power2(7 * read))
  }

  function FeedByte(c: Counter, b: byte): Counter {
    match c.state
    case Payload(left) => c.(state := if left <= 1 then Type else Payload(left - 1))
    case Type => c.(state := if b < 128 then Length(0, 0) else TypeSecond)
    case TypeSecond => c.(state := Length(0, 0))
    case Length(read, len) =>
      var longer := LengthWith(len, read, b);
      if b >= 128 && read < 3 then c.(state := Length(read + 1, longer))
      else Counter(c.records + 1, if longer == 0 then Type else Payload(longer))
  }

  /** What a counter makes of some bytes, one at a time. */
  function Fed(c: Counter, bytes: Bytes): Counter {
    if bytes == [] then c else FeedByte(Fed(c, bytes[..|bytes| - 1]), bytes[|bytes| - 1])
  }

  /** How the bytes are cut into pieces makes no difference. */
  lemma {:induction false} FedInPieces(c: Counter, a: Bytes, b: Bytes)
    ensures Fed(c, a + b) == Fed(Fed(c, a), b)
  {
    if b == [] {
      assert a + b == a;
    } else {
      assert (a + b)[..|a + b| - 1] == a + b[..|b| - 1];
      FedInPieces(c, a, b[..|b| - 1]);
    }
  }

  lemma FedNothing(c: Counter)
    ensures Fed(c, []) == c
  {
  }

  lemma FedOne(c: Counter, b: byte)
    ensures Fed(c, [b]) == FeedByte(c, b)
  {
    assert [b][..0] == [];
  }

  lemma FedFirst(c: Counter, bytes: Bytes)
    requires bytes != []
    ensures Fed(c, bytes) == Fed(FeedByte(c, bytes[0]), bytes[1..])
  {
    FedOne(c, bytes[0]);
    FedInPieces(c, [bytes[0]], bytes[1..]);
    assert [bytes[0]] + bytes[1..] == bytes;
  }

  /** Skipping a payload is one step of the source and one byte each here. */
  lemma {:induction false} FedPayload(records: nat, left: nat, bytes: Bytes)
    requires 0 < left && |bytes| <= left
    ensures Fed(Counter(records, Payload(left)), bytes) ==
            Counter(records, if |bytes| == left then Type else Payload(left - |bytes|))
  {
    if bytes == [] {
    } else {
      FedPayload(records, left, bytes[..|bytes| - 1]);
    }
  }

  /** A payload is never empty, and a length never has more bits than its
      bytes can hold. */
  predicate ValidCounter(c: Counter) {
    match c.state
    case Payload(left) => left > 0
    case Length(read, len) => read <= 3 && len < Power2(7 * read)
    case _ => true
  }

  lemma LengthGrows(len: nat, read: nat, b: byte)
    requires len < Power2(7 * read)
    ensures LengthWith(len, read, b) == len + (b % 128) * Power2(7 * read) < Power2(7 * (read + 1))
  {
    hide Or, Power2;
    OrAdds(len, b % 128, 7 * read);
    PowerSeven(7 * read);
    NoMore(b % 128, 127, Power2(7 * read));
  }

  lemma NoMore(a: nat, b: nat, unit: nat)
    requires a <= b
    ensures a * unit <= b * unit
  {
  }

  lemma PowerSeven(n: nat)
    ensures Power2(n + 7) == 128 * Power2(n)
  {
    assert Power2(n + 2) == 2 * Power2(n + 1) == 4 * Power2(n);
    assert Power2(n + 4) == 2 * Power2(n + 3) == 4 * Power2(n + 2);
    assert Power2(n + 6) == 2 * Power2(n + 5) == 4 * Power2(n + 4);
  }

  lemma {:induction false} FedValid(c: Counter, bytes: Bytes)
    requires ValidCounter(c)
    ensures ValidCounter(Fed(c, bytes))
  {
    hide LengthWith;
    if bytes == [] {
    } else {
      FedValid(c, bytes[..|bytes| - 1]);
      var before := Fed(c, bytes[..|bytes| - 1]);
      if before.state.Length? {
        LengthGrows(before.state.len, before.state.read, bytes[|bytes| - 1]);
      }
    }
  }

  /** The loop's two ways on: one byte, or the rest of a payload. */
  lemma FedByte(c: Counter, bytes: Bytes)
    requires ValidCounter(c) && bytes != []
    ensures ValidCounter(FeedByte(c, bytes[0]))
    ensures Fed(c, bytes) == Fed(FeedByte(c, bytes[0]), bytes[1..])
  {
    FedFirst(c, bytes);
    FedValid(c, [bytes[0]]);
    FedOne(c, bytes[0]);
  }

  lemma FedSkip(records: nat, left: nat, bytes: Bytes)
    requires left > 0
    ensures var skip := Min(left, |bytes|);
            Fed(Counter(records, Payload(left)), bytes) ==
            Fed(Counter(records, if left == skip then Type else Payload(left - skip)), bytes[skip..])
  {
    var skip := Min(left, |bytes|);
    FedPayload(records, left, bytes[..skip]);
    FedInPieces(Counter(records, Payload(left)), bytes[..skip], bytes[skip..]);
    assert bytes[..skip] + bytes[skip..] == bytes;
  }

  class RecordCounter {
    /** Record headers read so far. */
    var records: nat
    var state: RecordState

    function State(): Counter
      reads this
    {
      Counter(records, state)
    }

    constructor ()
      ensures State() == NEW_COUNTER
    {
      records, state := 0, Type;
    }

    method Feed(bytes: Bytes)
      requires ValidCounter(State())
      modifies this
      ensures ValidCounter(State()) && State() == Fed(old(State()), bytes)
    {
      hide Fed, LengthWith;
      var rest := bytes;
      while rest != []
        invariant ValidCounter(State())
        invariant Fed(State(), rest) == Fed(old(State()), bytes)
        decreases |rest|
      {
        var b := rest[0];
        FedByte(State(), rest);
        match state {
          case Payload(left) =>
            var skip := Min(left, |rest|);
            FedSkip(records, left, rest);
            rest := rest[skip..];
            state := if left == skip then Type else Payload(left - skip);
          case Type =>
            rest := rest[1..];
            state := if b < 128 then Length(0, 0) else TypeSecond;
          case TypeSecond =>
            rest := rest[1..];
            state := Length(0, 0);
          case Length(read, len) =>
            rest := rest[1..];
            var longer := LengthWith(len, read, b);
            if b >= 128 && read < 3 {
              state := Length(read + 1, longer);
            } else {
              records := records + 1;
              state := if longer == 0 then Type else Payload(longer);
            }
        }
      }
      FedNothing(State());
    }
  }

  /** A record takes two bytes at least. */
  function HeaderBytes(state: RecordState): nat {
    match state
    case TypeSecond => 1
    case Length(read, _) => 1 + read
    case _ => 0
  }

  lemma {:induction false} TwoBytesARecord(bytes: Bytes)
    ensures var c := Fed(NEW_COUNTER, bytes);
            2 * c.records + HeaderBytes(c.state) <= |bytes|
  {
    if bytes == [] {
    } else {
      TwoBytesARecord(bytes[..|bytes| - 1]);
    }
  }
}
