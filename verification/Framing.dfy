/**
 The control client's framing: an 8-byte big-endian length and then the payload, over a socket that keeps
 packet boundaries.  Receiving takes one packet and discards what does not fit the requested size.
 */
module Framing {
  import opened Basics
  import opened Octets

  /** The length is sent in this many bytes. */
  const HEADER_SIZE: nat := 8

  // ----- receiving a given number of bytes -----

  function Cut(p: Bytes, n: nat): Bytes { if |p| <= n then p else p[..n] }

  /** What the first k receives of at most n bytes return, put together. */
  function Taken(packets: seq<Bytes>, k: nat, n: nat): Bytes
    requires k <= |packets|
  {
    if k == 0 then [] else Taken(packets, k - 1, n) + Cut(packets[k - 1], n)
  }

  /** The loop stops after k packets: the first moment at which it has exactly n bytes. */
  predicate StopsAfter(packets: seq<Bytes>, n: nat, k: nat)
  {
    k <= |packets| && |Taken(packets, k, n)| == n && NoStopBefore(packets, n, k)
  }

  predicate NoStopBefore(packets: seq<Bytes>, n: nat, k: nat)
    requires k <= |packets|
  {
    forall j :: 0 <= j < k ==> |Taken(packets, j, n)| != n
  }

  /** The receive loop.  None stands for a loop that is still waiting when all packets are used up. */
  method ReceiveData(packets: seq<Bytes>, expected: nat) returns (r: Option<Bytes>, rest: seq<Bytes>)
    ensures (r, rest) == Receive(packets, expected)
    ensures r.Some? ==> |r.value| == expected
  {
    var result: Bytes := [];
    var i := 0;
    while |result| != expected
      invariant 0 <= i <= |packets|
      invariant Receive(packets, expected) == ReceiveFrom(packets, i, expected, result)
      decreases |packets| - i
    {
      if i == |packets| {
        return None, [];
      }
      result := result + Cut(packets[i], expected);
      i := i + 1;
    }
    return Some(result), packets[i..];
  }

  function ReceiveFrom(packets: seq<Bytes>, i: nat, n: nat, got: Bytes): (Option<Bytes>, seq<Bytes>)
    requires i <= |packets|
    decreases |packets| - i
  {
    if |got| == n then (Some(got), packets[i..])
    else if i == |packets| then (None, [])
    else ReceiveFrom(packets, i + 1, n, got + Cut(packets[i], n))
  }

  function Receive(packets: seq<Bytes>, n: nat): (Option<Bytes>, seq<Bytes>)
  {
    ReceiveFrom(packets, 0, n, [])
  }

  lemma {:induction false} FromStops(packets: seq<Bytes>, i: nat, n: nat) returns (k: nat)
    requires i <= |packets| && NoStopBefore(packets, n, i)
    ensures var got := ReceiveFrom(packets, i, n, Taken(packets, i, n));
            k <= |packets| && NoStopBefore(packets, n, k) &&
            if got.0.None? then k == |packets| && |Taken(packets, k, n)| != n
            else got == (Some(Taken(packets, k, n)), packets[k..]) && |Taken(packets, k, n)| == n
    decreases |packets| - i
  {
    if |Taken(packets, i, n)| == n || i == |packets| {
      k := i;
    } else {
      TakenStep(packets, i, n);
      assert NoStopBefore(packets, n, i + 1);
      k := FromStops(packets, i + 1, n);
    }
  }

  lemma TakenStep(packets: seq<Bytes>, i: nat, n: nat)
    requires i < |packets| && |Taken(packets, i, n)| != n
    ensures ReceiveFrom(packets, i, n, Taken(packets, i, n)) == ReceiveFrom(packets, i + 1, n, Taken(packets, i + 1, n))
  {
    assert Taken(packets, i + 1, n) == Taken(packets, i, n) + Cut(packets[i], n);
  }

  /** The loop returns exactly when some number of receives adds up to the expected length; it stops at the
      first such number with exactly those bytes. */
  lemma ReturnsIffLengthsAddUp(packets: seq<Bytes>, n: nat)
    ensures Receive(packets, n).0.Some? <==> exists k: nat :: StopsAfter(packets, n, k)
    ensures forall k: nat :: StopsAfter(packets, n, k) ==>
              Receive(packets, n) == (Some(Taken(packets, k, n)), packets[k..])
  {
    var k := FromStops(packets, 0, n);
    if Receive(packets, n).0.Some? { assert StopsAfter(packets, n, k); }
    forall m: nat | StopsAfter(packets, n, m)
      ensures Receive(packets, n) == (Some(Taken(packets, m, n)), packets[m..])
    {
      SameStop(packets, n, k, m);
    }
  }

  lemma SameStop(packets: seq<Bytes>, n: nat, k: nat, m: nat)
    requires k <= |packets| && NoStopBefore(packets, n, k) && (k < |packets| ==> |Taken(packets, k, n)| == n)
    requires StopsAfter(packets, n, m)
    ensures m == k
  {
  }

  /** Once the loop has more than it expects it never returns. */
  lemma {:induction false} OvershootHangs(packets: seq<Bytes>, i: nat, n: nat, got: Bytes)
    requires i <= |packets| && |got| > n
    ensures ReceiveFrom(packets, i, n, got).0 == None
    decreases |packets| - i
  {
    if i < |packets| { OvershootHangs(packets, i + 1, n, got + Cut(packets[i], n)); }
  }

  // ----- framed messages -----

  function Joined(pieces: seq<Bytes>): Bytes
  {
    if pieces == [] then [] else pieces[0] + Joined(pieces[1..])
  }

  /** One framed message: its header packet and then its payload, split into packets in any way. */
  function Frame(pieces: seq<Bytes>): seq<Bytes>
  {
    [Big(|Joined(pieces)|, HEADER_SIZE)] + pieces
  }

  function Stream(messages: seq<seq<Bytes>>): seq<Bytes>
  {
    if messages == [] then [] else Frame(messages[0]) + Stream(messages[1..])
  }

  /** Receive a size, then that many bytes if there are any. */
  function ReceiveMessage(packets: seq<Bytes>): (Option<Bytes>, seq<Bytes>)
  {
    var (header, rest) := Receive(packets, HEADER_SIZE);
    if header.None? then (None, [])
    else if Unbig(header.value) == 0 then (Some([]), rest)
    else Receive(rest, Unbig(header.value))
  }

  function ReceiveMessages(packets: seq<Bytes>, count: nat): Option<seq<Bytes>>
    decreases count
  {
    if count == 0 then Some([])
    else
      var (first, rest) := ReceiveMessage(packets);
      if first.None? then None
      else
        var others := ReceiveMessages(rest, count - 1);
        if others.None? then None else Some([first.value] + others.value)
  }

  predicate AllEmpty(ps: seq<Bytes>) { forall i :: 0 <= i < |ps| ==> ps[i] == [] }

  /** Receiving from position i is receiving from the packets that are left. */
  lemma {:induction false} FromIsSuffix(pre: seq<Bytes>, packets: seq<Bytes>, i: nat, n: nat, got: Bytes)
    requires i <= |packets|
    ensures ReceiveFrom(pre + packets, |pre| + i, n, got) == ReceiveFrom(packets, i, n, got)
    decreases |packets| - i
  {
    assert (pre + packets)[|pre| + i..] == packets[i..];
    if |got| != n && i < |packets| {
      FromIsSuffix(pre, packets, i + 1, n, got + Cut(packets[i], n));
    }
  }

  lemma ReceiveNext(p: Bytes, packets: seq<Bytes>, n: nat, got: Bytes)
    requires |got| != n
    ensures ReceiveFrom([p] + packets, 0, n, got) == ReceiveFrom(packets, 0, n, got + Cut(p, n))
  {
    FromIsSuffix([p], packets, 0, n, got + Cut(p, n));
  }

  /** Pieces that sum to the expected length are put together; empty ones left over stay in the queue. */
  lemma {:induction false} PiecesAreJoined(pieces: seq<Bytes>, more: seq<Bytes>, n: nat, got: Bytes)
    returns (left: seq<Bytes>)
    requires |got| + |Joined(pieces)| == n
    ensures AllEmpty(left) && ReceiveFrom(pieces + more, 0, n, got) == (Some(got + Joined(pieces)), left + more)
  {
    if |got| == n {
      JoinedEmpty(pieces);
      assert (pieces + more)[0..] == pieces + more;
      assert got + Joined(pieces) == got;
      left := pieces;
    } else {
      assert pieces + more == [pieces[0]] + (pieces[1..] + more);
      ReceiveNext(pieces[0], pieces[1..] + more, n, got);
      assert (got + pieces[0]) + Joined(pieces[1..]) == got + Joined(pieces);
      left := PiecesAreJoined(pieces[1..], more, n, got + pieces[0]);
    }
  }

  lemma {:induction false} JoinedEmpty(pieces: seq<Bytes>)
    requires |Joined(pieces)| == 0
    ensures AllEmpty(pieces)
  {
    if pieces != [] {
      assert |Joined(pieces)| == |pieces[0]| + |Joined(pieces[1..])|;
      JoinedEmpty(pieces[1..]);
      EmptyCons(pieces);
    }
  }

  lemma EmptyCons(pieces: seq<Bytes>)
    requires pieces != [] && |pieces[0]| == 0 && AllEmpty(pieces[1..])
    ensures AllEmpty(pieces)
  {
    forall i | 0 <= i < |pieces| ensures pieces[i] == [] {
      if i > 0 { assert pieces[i] == pieces[1..][i - 1]; }
    }
  }

  lemma {:induction false} EmptiesAreSkipped(left: seq<Bytes>, packets: seq<Bytes>, n: nat)
    requires AllEmpty(left) && n > 0
    ensures ReceiveFrom(left + packets, 0, n, []) == ReceiveFrom(packets, 0, n, [])
  {
    if left == [] {
      assert left + packets == packets;
    } else {
      assert left + packets == [left[0]] + (left[1..] + packets);
      assert left[0] == [];
      ReceiveNext([], left[1..] + packets, n, []);
      assert AllEmpty(left[1..]) by {
        forall i | 0 <= i < |left[1..]| ensures left[1..][i] == [] { assert left[1..][i] == left[i + 1]; }
      }
      EmptiesAreSkipped(left[1..], packets, n);
    }
  }

  lemma HeaderIsRead(left: seq<Bytes>, header: Bytes, more: seq<Bytes>)
    requires AllEmpty(left) && |header| == HEADER_SIZE
    ensures Receive(left + ([header] + more), HEADER_SIZE) == (Some(header), more)
  {
    EmptiesAreSkipped(left, [header] + more, HEADER_SIZE);
    ReceiveNext(header, more, HEADER_SIZE, []);
    assert [] + Cut(header, HEADER_SIZE) == header;
    assert more[0..] == more;
  }

  lemma FrameThen(pieces: seq<Bytes>, more: seq<Bytes>)
    ensures Frame(pieces) + more == [Big(|Joined(pieces)|, HEADER_SIZE)] + (pieces + more)
  {
  }

  lemma MessageIsRead(left: seq<Bytes>, pieces: seq<Bytes>, more: seq<Bytes>) returns (l: seq<Bytes>)
    requires AllEmpty(left) && |Joined(pieces)| < Power256(HEADER_SIZE)
    ensures AllEmpty(l) && ReceiveMessage(left + (Frame(pieces) + more)) == (Some(Joined(pieces)), l + more)
  {
    var n := |Joined(pieces)|;
    FrameThen(pieces, more);
    HeaderIsRead(left, Big(n, HEADER_SIZE), pieces + more);
    BigRoundTrip(n, HEADER_SIZE);
    if n == 0 {
      JoinedEmpty(pieces);
      l := pieces;
    } else {
      l := PiecesAreJoined(pieces, more, n, []);
      assert [] + Joined(pieces) == Joined(pieces);
    }
  }

  function Payloads(messages: seq<seq<Bytes>>): (r: seq<Bytes>)
    ensures |r| == |messages| && forall i :: 0 <= i < |r| ==> r[i] == Joined(messages[i])
  {
    seq(|messages|, i requires 0 <= i < |messages| => Joined(messages[i]))
  }

  lemma {:induction false} StreamIsRead(left: seq<Bytes>, messages: seq<seq<Bytes>>)
    requires AllEmpty(left) && forall i :: 0 <= i < |messages| ==> |Joined(messages[i])| < Power256(HEADER_SIZE)
    ensures ReceiveMessages(left + Stream(messages), |messages|) == Some(Payloads(messages))
    decreases |messages|
  {
    if messages != [] {
      var more := Stream(messages[1..]);
      var l := MessageIsRead(left, messages[0], more);
      StreamIsRead(l, messages[1..]);
      assert Payloads(messages) == [Joined(messages[0])] + Payloads(messages[1..]);
    }
  }

  /** Every sequence of messages is received in order and intact, however each payload is split into packets. */
  lemma MessagesRecovered(messages: seq<seq<Bytes>>)
    requires forall i :: 0 <= i < |messages| ==> |Joined(messages[i])| < Power256(HEADER_SIZE)
    ensures ReceiveMessages(Stream(messages), |messages|) == Some(Payloads(messages))
  {
    StreamIsRead([], messages);
    assert [] + Stream(messages) == Stream(messages);
  }

  // ----- text messages -----

  function Utf8Char(c: char): (r: Bytes)
    ensures 1 <= |r| <= 4 && (|r| == 1 <==> c as int < 0x80)
  {
    var x := c as nat;
    if x < 0x80 then [x]
    else if x < 0x800 then [0xC0 + x / 64, 0x80 + x % 64]
    else if x < 0x10000 then [0xE0 + x / 4096, 0x80 + x / 64 % 64, 0x80 + x % 64]
    else [0xF0 + x / 262144, 0x80 + x / 4096 % 64, 0x80 + x / 64 % 64, 0x80 + x % 64]
  }

  function Utf8(s: string): Bytes
  {
    if s == [] then [] else Utf8Char(s[0]) + Utf8(s[1..])
  }

  predicate Ascii(s: string) { forall i :: 0 <= i < |s| ==> s[i] as int < 0x80 }

  lemma {:induction false} Utf8Length(s: string)
    ensures |Utf8(s)| >= |s|
    ensures |Utf8(s)| == |s| <==> Ascii(s)
  {
    if s != [] {
      Utf8Length(s[1..]);
      assert s == [s[0]] + s[1..];
      if Ascii(s[1..]) && s[0] as int < 0x80 {
        forall i | 0 <= i < |s| ensures s[i] as int < 0x80 { if i > 0 { assert s[i] == s[1..][i - 1]; } }
      }
      if Ascii(s) {
        forall i | 0 <= i < |s[1..]| ensures s[1..][i] as int < 0x80 { assert s[1..][i] == s[i + 1]; }
      }
    }
  }

  /** The bytes of an ASCII text are its character codes. */
  lemma {:induction false} AsciiBytes(s: string)
    requires Ascii(s)
    ensures |Utf8(s)| == |s| && forall i :: 0 <= i < |s| ==> Utf8(s)[i] == s[i] as nat
  {
    if s != [] {
      forall i | 0 <= i < |s[1..]| ensures s[1..][i] as int < 0x80 { assert s[1..][i] == s[i + 1]; }
      AsciiBytes(s[1..]);
    }
  }

  /** The lower six bits of a byte that continues a code point. */
  function Six(b: Byte): nat
    requires 0x80 <= b
  {
    b - 0x80
  }

  predicate Continues(b: Bytes, n: nat)
  {
    n < |b| && forall i :: 1 <= i <= n ==> b[i] >= 0x80
  }

  /** The code point whose bytes stand at the front, and how many they are: the first byte tells. */
  function ReadCodePoint(b: Bytes): (r: Option<(nat, nat)>)
    ensures r.Some? ==> 1 <= r.value.1 <= |b|
  {
    if b == [] then None
    else
      var lead: nat := b[0];
      if lead < 0x80 then Some((lead, 1))
      else if 0xC0 <= lead < 0xE0 && Continues(b, 1) then Some((64 * (lead - 0xC0) + Six(b[1]), 2))
      else if 0xE0 <= lead < 0xF0 && Continues(b, 2)
        then Some((4096 * (lead - 0xE0) + 64 * Six(b[1]) + Six(b[2]), 3))
      else if 0xF0 <= lead && Continues(b, 3)
        then Some((262144 * (lead - 0xF0) + 4096 * Six(b[1]) + 64 * Six(b[2]) + Six(b[3]), 4))
      else None
  }

  function CodePoints(b: Bytes): Option<seq<nat>>
    decreases |b|
  {
    if b == [] then Some([])
    else
      match ReadCodePoint(b)
      case None => None
      case Some((x, n)) =>
        match CodePoints(b[n..])
        case None => None
        case Some(xs) => Some([x] + xs)
  }

  lemma ThreeDigits(x: nat)
    ensures x == 4096 * (x / 4096) + 64 * (x / 64 % 64) + x % 64
    ensures x == 262144 * (x / 262144) + 4096 * (x / 4096 % 64) + 64 * (x / 64 % 64) + x % 64
  {
    assert x / 64 / 64 == x / 4096;
    assert x / 4096 / 64 == x / 262144;
  }

  lemma CodePointRead(c: char, rest: Bytes)
    ensures ReadCodePoint(Utf8Char(c) + rest) == Some((c as nat, |Utf8Char(c)|))
  {
    ThreeDigits(c as nat);
  }

  function Codes(s: string): (r: seq<nat>)
    ensures |r| == |s| && forall i :: 0 <= i < |s| ==> r[i] == s[i] as nat
  {
    seq(|s|, i requires 0 <= i < |s| => s[i] as nat)
  }

  /** Every text can be read back from its bytes. */
  lemma {:induction false} Utf8RoundTrip(s: string)
    ensures CodePoints(Utf8(s)) == Some(Codes(s))
  {
    if s != [] {
      Utf8RoundTrip(s[1..]);
      OneMoreChar(s[0], Utf8(s[1..]), Codes(s[1..]));
      assert Codes(s) == [s[0] as nat] + Codes(s[1..]);
    }
  }

  lemma OneMoreChar(c: char, rest: Bytes, xs: seq<nat>)
    requires CodePoints(rest) == Some(xs)
    ensures CodePoints(Utf8Char(c) + rest) == Some([c as nat] + xs)
  {
    var b := Utf8Char(c) + rest;
    CodePointRead(c, rest);
    assert b[|Utf8Char(c)|..] == rest;
  }

  /** Sending announces the number of characters and then sends the encoded text as one packet. */
  function Send(msg: string): seq<Bytes> { [Big(|msg|, HEADER_SIZE), Utf8(msg)] }

  /** A receiver of the same framing gets as many bytes as the message has characters; that is the whole
      message exactly when it is ASCII.  Of an empty message the empty packet stays behind. */
  lemma SentTextArrivesIff(msg: string, more: seq<Bytes>)
    requires |msg| < Power256(HEADER_SIZE)
    ensures |Utf8(msg)| >= |msg|
    ensures ReceiveMessage(Send(msg) + more) == (Some(Utf8(msg)[..|msg|]), if msg == [] then [[]] + more else more)
    ensures ReceiveMessage(Send(msg) + more).0 == Some(Utf8(msg)) <==> Ascii(msg)
  {
    Utf8Length(msg);
    if msg == [] {
      assert Send(msg) + more == [] + ([Big(0, HEADER_SIZE)] + ([[]] + more));
      HeaderIsRead([], Big(0, HEADER_SIZE), [[]] + more);
      BigRoundTrip(0, HEADER_SIZE);
    } else {
      AnnouncedPacket(|msg|, Utf8(msg), more);
    }
  }

  lemma AnnouncedPacket(n: nat, u: Bytes, more: seq<Bytes>)
    requires 0 < n < Power256(HEADER_SIZE) && n <= |u|
    ensures ReceiveMessage([Big(n, HEADER_SIZE), u] + more) == (Some(u[..n]), more)
    ensures u[..n] == u <==> |u| == n
  {
    assert [Big(n, HEADER_SIZE), u] + more == [] + ([Big(n, HEADER_SIZE)] + ([u] + more));
    HeaderIsRead([], Big(n, HEADER_SIZE), [u] + more);
    BigRoundTrip(n, HEADER_SIZE);
    PacketIsCut(u, more, n);
    assert |u[..n]| == n;
  }

  lemma PacketIsCut(u: Bytes, more: seq<Bytes>, n: nat)
    requires 0 < n <= |u|
    ensures Receive([u] + more, n) == (Some(u[..n]), more)
  {
    ReceiveNext(u, more, n, []);
    assert [] + Cut(u, n) == u[..n];
    assert more[0..] == more;
  }
}
