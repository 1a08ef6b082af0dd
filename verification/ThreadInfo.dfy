/**
 The ThreadInfo message on the wire, in proto3 encoding: each field that is not zero is a key byte and a
 base-128 varint.
 */
module ThreadInfo {
  import opened Basics
  import opened Octets
  import opened Framing

  datatype Info = Info(threads: nat, idle: nat)

  const LIMIT: nat := 0x1_0000_0000_0000_0000

  /** Both counts are 64-bit. */
  predicate WellTyped(i: Info) { i.threads < LIMIT && i.idle < LIMIT }

  function Varint(n: nat): (r: Bytes)
    ensures r != []
  {
    if n < 128 then [n] else [128 + n % 128] + Varint(n / 128)
  }

  /** Read a varint of at most `room` bytes: its value and what follows it. */
  function ReadVarint(b: Bytes, room: nat): (r: Option<(nat, Bytes)>)
    ensures r.Some? ==> |r.value.1| < |b|
  {
    if b == [] || room == 0 then None
    else if b[0] < 128 then Some((b[0], b[1..]))
    else
      var r := ReadVarint(b[1..], room - 1);
      if r.None? then None else Some((b[0] - 128 + 128 * r.value.0, r.value.1))
  }

  function Power128(w: nat): (r: nat)
    ensures r >= 1
  {
    if w == 0 then 1 else 128 * Power128(w - 1)
  }

  lemma {:induction false} VarintLength(n: nat, w: nat)
    requires w > 0 && n < Power128(w)
    ensures |Varint(n)| <= w
    decreases w
  {
    if n >= 128 {
      assert Power128(w) == 128 * Power128(w - 1);
      VarintLength(n / 128, w - 1);
    }
  }

  lemma SixtyFourBits(n: nat)
    requires n < LIMIT
    ensures n < Power128(10)
  {
    assert Power128(5) == 128 * 128 * 128 * 128 * 128;
    assert Power128(10) == 128 * 128 * 128 * 128 * 128 * Power128(5);
  }

  /** Any varint short enough for the reader is read back, whatever follows it. */
  lemma {:induction false} VarintRoundTrip(n: nat, rest: Bytes, room: nat)
    requires |Varint(n)| <= room
    ensures ReadVarint(Varint(n) + rest, room) == Some((n, rest))
    decreases n
  {
    var b := Varint(n) + rest;
    if n < 128 {
      assert b[1..] == rest;
    } else {
      VarintRoundTrip(n / 128, rest, room - 1);
      assert b[1..] == Varint(n / 128) + rest;
    }
  }

  const THREADS_KEY: Byte := 8
  const IDLE_KEY: Byte := 16
  const MAX_VARINT: nat := 10

  function EncodeField(key: Byte, n: nat): Bytes
  {
    if n == 0 then [] else [key] + Varint(n)
  }

  function Encode(i: Info): Bytes
  {
    EncodeField(THREADS_KEY, i.threads) + EncodeField(IDLE_KEY, i.idle)
  }

  /** Parse the fields of the message into what has been read so far; a repeated field replaces its value. */
  function DecodeInto(b: Bytes, sofar: Info): Option<Info>
    decreases |b|
  {
    if b == [] then Some(sofar)
    else
      var r := ReadVarint(b[1..], MAX_VARINT);
      if r.None? then None
      else if b[0] == THREADS_KEY then DecodeInto(r.value.1, sofar.(threads := r.value.0 % LIMIT))
      else if b[0] == IDLE_KEY then DecodeInto(r.value.1, sofar.(idle := r.value.0 % LIMIT))
      else None
  }

  function Decode(b: Bytes): Option<Info> { DecodeInto(b, Info(0, 0)) }

  lemma FieldVarint(n: nat, rest: Bytes)
    requires n < LIMIT
    ensures ReadVarint(Varint(n) + rest, MAX_VARINT) == Some((n, rest))
  {
    SixtyFourBits(n);
    VarintLength(n, MAX_VARINT);
    VarintRoundTrip(n, rest, MAX_VARINT);
  }

  lemma KeyThenVarint(key: Byte, n: nat, rest: Bytes)
    requires n != 0
    ensures var b := EncodeField(key, n) + rest; b != [] && b[0] == key && b[1..] == Varint(n) + rest
  {
  }

  lemma FieldRead(key: Byte, n: nat, rest: Bytes, sofar: Info)
    requires n < LIMIT && (key == THREADS_KEY || key == IDLE_KEY)
    ensures DecodeInto(EncodeField(key, n) + rest, sofar) ==
            if n == 0 then DecodeInto(rest, sofar)
            else DecodeInto(rest, if key == THREADS_KEY then sofar.(threads := n) else sofar.(idle := n))
  {
    var b := EncodeField(key, n) + rest;
    if n == 0 {
      assert b == rest;
    } else {
      FieldVarint(n, rest);
      KeyThenVarint(key, n, rest);
    }
  }

  /** Every pair of 64-bit counts is read back. */
  lemma RoundTrip(i: Info)
    requires WellTyped(i)
    ensures Decode(Encode(i)) == Some(i)
  {
    var second := EncodeField(IDLE_KEY, i.idle);
    FieldRead(THREADS_KEY, i.threads, second, Info(0, 0));
    assert second + [] == second;
    FieldRead(IDLE_KEY, i.idle, [], Info(i.threads, 0));
  }

  /** The encoding is short, and it is empty exactly when both counts are zero. */
  lemma Size(i: Info)
    requires WellTyped(i)
    ensures |Encode(i)| <= 22
    ensures Encode(i) == [] <==> i == Info(0, 0)
  {
    SixtyFourBits(i.threads);
    VarintLength(i.threads, 10);
    SixtyFourBits(i.idle);
    VarintLength(i.idle, 10);
  }

  /** Two messages one after the other read like the second on top of the first: the wire form of a merge. */
  lemma ConcatMerges(a: Info, b: Info)
    requires WellTyped(a) && WellTyped(b)
    ensures Decode(Encode(a) + Encode(b)) ==
            Some(Info(if b.threads == 0 then a.threads else b.threads, if b.idle == 0 then a.idle else b.idle))
  {
    var a2, b1, b2 := EncodeField(IDLE_KEY, a.idle), EncodeField(THREADS_KEY, b.threads), EncodeField(IDLE_KEY, b.idle);
    var threads := if b.threads == 0 then a.threads else b.threads;
    assert Encode(a) + Encode(b) == EncodeField(THREADS_KEY, a.threads) + (a2 + (b1 + b2));
    FieldRead(THREADS_KEY, a.threads, a2 + (b1 + b2), Info(0, 0));
    FieldRead(IDLE_KEY, a.idle, b1 + b2, Info(a.threads, 0));
    FieldRead(THREADS_KEY, b.threads, b2, Info(a.threads, a.idle));
    assert b2 + [] == b2;
    FieldRead(IDLE_KEY, b.idle, [], Info(threads, a.idle));
  }

  /** The bytes themselves, for counts of one byte: tag 8 and the threads, tag 16 and the idle ones, and of a zero
      nothing. */
  lemma SmallCounts(i: Info)
    requires i.threads < 128 && i.idle < 128
    ensures Encode(i) == (if i.threads == 0 then [] else [8, i.threads]) + (if i.idle == 0 then [] else [16, i.idle])
    ensures i.threads > 0 && i.idle > 0 ==> Encode(i) == [8, i.threads, 16, i.idle]
  {
  }

  /** A varint holds seven bits to the byte, low ones first; every byte but the last has its top bit set. */
  lemma {:induction false} VarintDigit(n: nat, i: nat)
    requires i < |Varint(n)|
    ensures Varint(n)[i] == n / Power128(i) % 128 + if i < |Varint(n)| - 1 then 128 else 0
    ensures Power128(|Varint(n)| - 1) <= n || n == 0
    decreases n
  {
    if n >= 128 {
      if i > 0 {
        VarintDigit(n / 128, i - 1);
        DivideAgain(n, Power128(i - 1));
      } else {
        VarintDigit(n / 128, 0);
      }
    }
  }

  lemma DivideAgain(n: nat, b: nat)
    requires b > 0
    ensures n / 128 / b == n / (128 * b)
  {
    var q := n / 128;
    var p := q / b;
    assert b * p <= q < b * p + b;
    assert (128 * b) * p == 128 * (b * p);
    QuotientIs(n, 128 * b, p);
  }

  // ----- the client's view -----

  /** threadInfo(): a reply of size zero, or one that does not parse, gives no pair. */
  function ClientThreadInfo(packets: seq<Bytes>): Option<Info>
  {
    var (data, _) := ReceiveMessage(packets);
    if data.None? || data.value == [] then None else Decode(data.value)
  }

  /** Over the framed socket the client gets the pair the daemon packed, unless both counts are zero: then it
      gets none. */
  lemma ClientSeesPairIff(i: Info, pieces: seq<Bytes>)
    requires WellTyped(i) && Joined(pieces) == Encode(i)
    ensures ClientThreadInfo(Frame(pieces)) == if i == Info(0, 0) then None else Some(i)
  {
    Size(i);
    RoundTrip(i);
    assert Power256(HEADER_SIZE) == 256 * Power256(7) >= 256;
    var _ := MessageIsRead([], pieces, []);
    assert [] + (Frame(pieces) + []) == Frame(pieces);
  }
}
