/** Bytes, and unsigned integers laid out in bytes. */
module Octets {

  type Byte = x: nat | x < 256
  type Bytes = seq<Byte>

  function Power256(w: nat): (r: nat)
    ensures r >= 1
  {
    if w == 0 then 1 else 256 * Power256(w - 1)
  }

  function Big(n: nat, w: nat): (r: Bytes)
    ensures |r| == w
  {
    if w == 0 then [] else Big(n / 256, w - 1) + [n % 256]
  }

  function Unbig(b: Bytes): nat
  {
    if b == [] then 0 else 256 * Unbig(b[..|b| - 1]) + b[|b| - 1]
  }

  lemma {:induction false} BigRoundTrip(n: nat, w: nat)
    requires n < Power256(w)
    ensures Unbig(Big(n, w)) == n
  {
    if w > 0 {
      BigRoundTrip(n / 256, w - 1);
      assert Big(n, w)[..w - 1] == Big(n / 256, w - 1);
    }
  }

  function Little(n: nat, w: nat): (r: Bytes)
    ensures |r| == w
  {
    if w == 0 then [] else [n % 256] + Little(n / 256, w - 1)
  }

  function Unlittle(b: Bytes): nat
  {
    if b == [] then 0 else b[0] + 256 * Unlittle(b[1..])
  }

  lemma FirstDigit(x: Byte, n: nat)
    ensures (x + 256 * n) % 256 == x && (x + 256 * n) / 256 == n
  {
  }

  lemma {:induction false} LittleUnlittle(b: Bytes)
    ensures Little(Unlittle(b), |b|) == b
    ensures Unlittle(b) < Power256(|b|)
  {
    if b != [] {
      LittleUnlittle(b[1..]);
      FirstDigit(b[0], Unlittle(b[1..]));
      assert b == [b[0]] + b[1..];
    }
  }

  lemma {:induction false} UnlittleLittle(n: nat, w: nat)
    requires n < Power256(w)
    ensures Unlittle(Little(n, w)) == n
  {
    if w > 0 {
      UnlittleLittle(n / 256, w - 1);
      assert Little(n, w)[1..] == Little(n / 256, w - 1);
    }
  }

  // ----- single digits -----

  lemma {:induction false} TimesMonotone(d: nat, a: nat, b: nat)
    requires a < b
    ensures d * a + d <= d * b
  {
    assert d * b == d * (b - 1) + d;
    if a < b - 1 { TimesMonotone(d, a, b - 1); }
  }

  lemma QuotientIs(n: nat, d: nat, q: nat)
    requires 0 < d && d * q <= n < d * q + d
    ensures n / d == q
  {
    var x := n / d;
    assert d * x <= n < d * x + d;
    if x < q { TimesMonotone(d, x, q); }
    if q < x { TimesMonotone(d, q, x); }
  }

  lemma DivideTwice(n: nat, b: nat)
    requires b > 0
    ensures n / 256 / b == n / (256 * b)
  {
    var q := n / 256;
    var p := q / b;
    assert b * p <= q < b * p + b;
    assert (256 * b) * p == 256 * (b * p);
    QuotientIs(n, 256 * b, p);
  }

  /** Byte i of a little-endian number is its digit of weight 256 to the i. */
  lemma {:induction false} LittleDigit(n: nat, w: nat, i: nat)
    requires i < w
    ensures Little(n, w)[i] == n / Power256(i) % 256
  {
    if i > 0 {
      LittleDigit(n / 256, w - 1, i - 1);
      DivideTwice(n, Power256(i - 1));
    }
  }

  /** In network order the most significant digit comes first. */
  lemma {:induction false} BigDigit(n: nat, w: nat, i: nat)
    requires i < w
    ensures Big(n, w)[i] == n / Power256(w - 1 - i) % 256
  {
    if i < w - 1 {
      BigDigit(n / 256, w - 1, i);
      DivideTwice(n, Power256(w - 2 - i));
    }
  }
}
