/**
 The daemon's conversion of 64-bit lengths to network byte order, built from the 32-bit one.

 A host is little or big endian; its 32-bit conversion swaps bytes on the one and does nothing on the
 other.
 */
module ByteOrder {
  import opened Octets

  const TWO_TO_32: nat := 0x1_0000_0000
  const TWO_TO_64: nat := TWO_TO_32 * TWO_TO_32

  /** Sizes in bytes. */
  const HALF: nat := 4
  const WORD: nat := 8

  function Reverse(b: Bytes): (r: Bytes)
    ensures |r| == |b|
  {
    if b == [] then [] else Reverse(b[1..]) + [b[0]]
  }

  /** How a number of w bytes lies in memory. */
  function Memory(n: nat, w: nat, little: bool): Bytes
  {
    if little then Little(n, w) else Big(n, w)
  }

  /** htonl and ntohl. */
  function Convert32(n: nat, little: bool): nat
  {
    if little then Unlittle(Big(n, HALF)) else n
  }

  /** hton64 and ntoh64: the two functions have the same body. */
  function Convert64(x: nat, little: bool): nat
  {
    var high := Convert32(x / TWO_TO_32, little);
    var low := Convert32(x % TWO_TO_32, little);
    low * TWO_TO_32 + high
  }

  lemma {:induction false} BigIsReversed(n: nat, w: nat)
    ensures Big(n, w) == Reverse(Little(n, w))
  {
    if w > 0 {
      BigIsReversed(n / 256, w - 1);
      assert Little(n, w)[1..] == Little(n / 256, w - 1);
    }
  }

  lemma {:induction false} ReverseLast(b: Bytes, x: Byte)
    ensures Reverse(b + [x]) == [x] + Reverse(b)
  {
    if b == [] {
      assert b + [x] == [x] && [x][1..] == [];
    } else {
      ReverseLast(b[1..], x);
      assert (b + [x])[1..] == b[1..] + [x];
    }
  }

  lemma {:induction false} ReverseTwice(b: Bytes)
    ensures Reverse(Reverse(b)) == b
  {
    if b != [] {
      ReverseLast(Reverse(b[1..]), b[0]);
      ReverseTwice(b[1..]);
      assert b == [b[0]] + b[1..];
    }
  }

  lemma {:induction false} LittleSplits(low: nat, high: nat, v: nat, w: nat)
    requires low < Power256(v)
    ensures Little(high * Power256(v) + low, v + w) == Little(low, v) + Little(high, w)
    decreases v
  {
    if v == 0 {
      assert high * Power256(v) + low == high;
      assert Little(low, v) + Little(high, w) == Little(high, w);
    } else {
      DivideOnce(high, Power256(v - 1), low);
      LittleSplits(low / 256, high, v - 1, w);
      LittleHead(high * Power256(v) + low, low, v, w, Little(high, w));
    }
  }

  lemma LittleHead(n: nat, low: nat, v: nat, w: nat, tail: Bytes)
    requires v > 0 && n % 256 == low % 256 && Little(n / 256, v - 1 + w) == Little(low / 256, v - 1) + tail
    ensures Little(n, v + w) == Little(low, v) + tail
  {
    assert [n % 256] + (Little(low / 256, v - 1) + tail) == ([low % 256] + Little(low / 256, v - 1)) + tail;
  }

  lemma DivideOnce(high: nat, p: nat, low: nat)
    ensures (high * (256 * p) + low) % 256 == low % 256
    ensures (high * (256 * p) + low) / 256 == high * p + low / 256
  {
    var q := high * p;
    assert high * (256 * p) == 256 * q;
  }

  lemma {:induction false} BigSplits(high: nat, low: nat, w: nat, v: nat)
    requires low < Power256(v)
    ensures Big(high * Power256(v) + low, w + v) == Big(high, w) + Big(low, v)
    decreases v
  {
    if v == 0 {
      assert high * Power256(v) + low == high;
      assert Big(high, w) + Big(low, v) == Big(high, w);
    } else {
      DivideOnce(high, Power256(v - 1), low);
      BigSplits(high, low / 256, w, v - 1);
      assert w + v - 1 == w + (v - 1);
      assert Big(high, w) + (Big(low / 256, v - 1) + [low % 256]) ==
             (Big(high, w) + Big(low / 256, v - 1)) + [low % 256];
    }
  }

  lemma FourBytes()
    ensures Power256(HALF) == TWO_TO_32
  {
    assert Power256(2) == 65536;
    assert Power256(4) == 256 * (256 * Power256(2));
  }

  /** The 32-bit conversion puts the big-endian bytes in memory, and is its own inverse. */
  lemma Convert32Works(n: nat, little: bool)
    requires n < TWO_TO_32
    ensures Convert32(n, little) < TWO_TO_32
    ensures Memory(Convert32(n, little), HALF, little) == Big(n, HALF)
    ensures Convert32(Convert32(n, little), little) == n
  {
    FourBytes();
    if little {
      LittleUnlittle(Big(n, HALF));
      BigIsReversed(n, HALF);
      BigIsReversed(Convert32(n, little), HALF);
      ReverseTwice(Little(n, HALF));
      UnlittleLittle(n, HALF);
    }
  }

  lemma Halves(x: nat)
    requires x < TWO_TO_64
    ensures x / TWO_TO_32 < TWO_TO_32 && x % TWO_TO_32 < TWO_TO_32 && x == (x / TWO_TO_32) * TWO_TO_32 + x % TWO_TO_32
  {
  }

  lemma FromHalves(high: nat, low: nat)
    requires high < TWO_TO_32 && low < TWO_TO_32
    ensures (high * TWO_TO_32 + low) / TWO_TO_32 == high && (high * TWO_TO_32 + low) % TWO_TO_32 == low
  {
  }

  /** Converting twice gives the number back, on either kind of host. */
  lemma RoundTrip64(x: nat, little: bool)
    requires x < TWO_TO_64
    ensures Convert64(Convert64(x, little), little) == x
  {
    Halves(x);
    Convert32Works(x / TWO_TO_32, little);
    Convert32Works(x % TWO_TO_32, little);
    FromHalves(Convert32(x % TWO_TO_32, little), Convert32(x / TWO_TO_32, little));
  }

  /** In memory the converted number starts with the upper half in network order on a little-endian host,
      with the lower half on a big-endian one. */
  lemma MemoryOfConverted(x: nat, little: bool)
    requires x < TWO_TO_64
    ensures Memory(Convert64(x, little), WORD, little) ==
            if little
            then Big(x / TWO_TO_32, HALF) + Big(x % TWO_TO_32, HALF)
            else Big(x % TWO_TO_32, HALF) + Big(x / TWO_TO_32, HALF)
  {
    Halves(x);
    FourBytes();
    var high, low := Convert32(x / TWO_TO_32, little), Convert32(x % TWO_TO_32, little);
    Convert32Works(x / TWO_TO_32, little);
    Convert32Works(x % TWO_TO_32, little);
    if little {
      LittleSplits(high, low, HALF, HALF);
    } else {
      BigSplits(low, high, HALF, HALF);
    }
  }

  lemma BigOfHalves(x: nat)
    requires x < TWO_TO_64
    ensures Big(x, WORD) == Big(x / TWO_TO_32, HALF) + Big(x % TWO_TO_32, HALF)
  {
    Halves(x);
    FourBytes();
    BigSplits(x / TWO_TO_32, x % TWO_TO_32, HALF, HALF);
  }

  /** So the length goes out as the client reads it, most significant byte first, exactly when the host is
      little endian or both halves of the length are equal. */
  lemma NetworkOrderIff(x: nat, little: bool)
    requires x < TWO_TO_64
    ensures Memory(Convert64(x, little), WORD, little) == Big(x, WORD) <==> little || x / TWO_TO_32 == x % TWO_TO_32
  {
    Halves(x);
    FourBytes();
    MemoryOfConverted(x, little);
    BigOfHalves(x);
    HalvesCommute(x / TWO_TO_32, x % TWO_TO_32, HALF);
  }

  lemma HalvesCommute(a: nat, b: nat, w: nat)
    requires a < Power256(w) && b < Power256(w)
    ensures Big(b, w) + Big(a, w) == Big(a, w) + Big(b, w) <==> a == b
  {
    var p, q := Big(a, w), Big(b, w);
    if q + p == p + q {
      assert q == (q + p)[..w] == (p + q)[..w] == p;
      BigRoundTrip(a, w);
      BigRoundTrip(b, w);
    }
  }
}
