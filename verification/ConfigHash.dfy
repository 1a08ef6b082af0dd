/**
 The byte image over which a configuration's hash is computed.

 Fields are fed to the digest in the order below, integers in their memory layout (little endian, addresses in
 network order), and without any separators.  Several fields of a host group are not fed at all.
 */
module ConfigHash {
  import opened Basics
  import opened Octets

  /** What is fed to the digest: bytes, and characters by their codes. */
  type Feed = seq<nat>

  /** The fields of a host group that the hash leaves out. */
  datatype Unhashed = Unhashed(
    checkInfo: string, remoteCheck: string, remoteCheckType: nat,
    fallback: nat, plugin: nat, dnsType: nat, flow: nat)

  datatype Group = Group(
    name: string,
    numbers: Numbers,
    source: Address,
    tos: nat,
    hosts: seq<string>,
    subgroups: seq<string>,
    unhashed: Unhashed)

  /** The widths of a group's hashed integers, in hashing order: measurement options, dual stack, check type,
      port, retries, retry delay, smoothing window, group threshold, slow threshold, maximum flaps, check
      timeout, time to live, flap threshold, pass-through information. */
  const WIDTHS: seq<nat> := [2, 1, 1, 2, 1, 4, 4, 4, 4, 4, 8, 8, 4, 4]

  type Numbers = s: seq<nat> | |s| == |WIDTHS| witness WIDTHS

  /** Every number is within the range of its width. */
  predicate Fits(widths: seq<nat>, ns: seq<nat>)
  {
    |ns| == |widths| && forall i :: 0 <= i < |ns| ==> ns[i] < Power256(widths[i])
  }

  function Packed(widths: seq<nat>, ns: seq<nat>): Feed
    requires |ns| == |widths|
  {
    if ns == [] then [] else Little(ns[0], widths[0]) + Packed(widths[1..], ns[1..])
  }

  /** The address family as one byte, then the address in network order. */
  function SourceBytes(s: Address): (r: Feed)
    ensures |r| > 0
  {
    match s
    case Unset => [0]
    case V4(a) => [2] + Big(a, 4)
    case V6(a) => [10] + Big(a, 16)
  }

  function Chars(s: string): (r: Feed)
    ensures |r| == |s|
  {
    seq(|s|, i requires 0 <= i < |s| => s[i] as nat)
  }

  function Text(names: seq<string>): Feed
  {
    if names == [] then [] else Chars(names[0]) + Text(names[1..])
  }

  function Layout(name: string, widths: seq<nat>, numbers: seq<nat>, source: Address, tos: nat, names: Feed): Feed
    requires |numbers| == |widths|
  {
    Chars(name) + (Packed(widths, numbers) + (SourceBytes(source) + ([tos] + names)))
  }

  /** What is fed to the digest for one group. */
  function Image(g: Group): Feed
  {
    Layout(g.name, WIDTHS, g.numbers, g.source, g.tos, Text(g.hosts) + Text(g.subgroups))
  }

  predicate SourceFits(s: Address)
  {
    match s
    case Unset => true
    case V4(a) => a < Power256(4)
    case V6(a) => a < Power256(16)
  }

  /** Every integer is within the range of its C++ type. */
  predicate WellTyped(g: Group)
  {
    Fits(WIDTHS, g.numbers) && SourceFits(g.source) && g.tos < 256
  }

  lemma LittleInjective(a: nat, b: nat, w: nat)
    requires a < Power256(w) && b < Power256(w) && Little(a, w) == Little(b, w)
    ensures a == b
  {
    UnlittleLittle(a, w);
    UnlittleLittle(b, w);
  }

  lemma BigInjective(a: nat, b: nat, w: nat)
    requires a < Power256(w) && b < Power256(w) && Big(a, w) == Big(b, w)
    ensures a == b
  {
    BigRoundTrip(a, w);
    BigRoundTrip(b, w);
  }

  lemma SplitEqual(a: Feed, x: Feed, b: Feed, y: Feed)
    requires |a| == |b| && a + x == b + y
    ensures a == b && x == y
  {
    assert (a + x)[..|a|] == a && (b + y)[..|b|] == b;
    assert (a + x)[|a|..] == x && (b + y)[|b|..] == y;
  }

  /** Fixed-width numbers can be read back whatever follows them. */
  lemma {:induction false} PackedPrefix(ws: seq<nat>, a: seq<nat>, b: seq<nat>, x: Feed, y: Feed)
    requires Fits(ws, a) && Fits(ws, b) && Packed(ws, a) + x == Packed(ws, b) + y
    ensures a == b && x == y
  {
    if a == [] {
      assert Packed(ws, a) + x == x && Packed(ws, b) + y == y;
    } else {
      var la, lb := Little(a[0], ws[0]), Little(b[0], ws[0]);
      var pa, pb := Packed(ws[1..], a[1..]), Packed(ws[1..], b[1..]);
      assert Packed(ws, a) + x == la + (pa + x);
      assert Packed(ws, b) + y == lb + (pb + y);
      SplitEqual(la, pa + x, lb, pb + y);
      LittleInjective(a[0], b[0], ws[0]);
      PackedPrefix(ws[1..], a[1..], b[1..], x, y);
      assert a == [a[0]] + a[1..] && b == [b[0]] + b[1..];
    }
  }

  /** The family byte tells how long a source address is. */
  lemma SourcePrefix(s: Address, t: Address, x: Feed, y: Feed)
    requires SourceFits(s) && SourceFits(t) && SourceBytes(s) + x == SourceBytes(t) + y
    ensures s == t && x == y
  {
    assert SourceBytes(s)[0] == (SourceBytes(s) + x)[0] == (SourceBytes(t) + y)[0] == SourceBytes(t)[0];
    SplitEqual(SourceBytes(s), x, SourceBytes(t), y);
    assert SourceBytes(s)[1..] == SourceBytes(t)[1..];
    match s {
      case Unset =>
      case V4(a) => BigInjective(a, t.bits, 4);
      case V6(a) => BigInjective(a, t.bits, 16);
    }
  }

  lemma TailDetermines(s: Address, t: Address, p: nat, q: nat, x: Feed, y: Feed)
    requires SourceFits(s) && SourceFits(t) && SourceBytes(s) + ([p] + x) == SourceBytes(t) + ([q] + y)
    ensures s == t && p == q && x == y
  {
    SourcePrefix(s, t, [p] + x, [q] + y);
    SplitEqual([p], x, [q], y);
  }

  lemma LayoutDetermines(name: string, ws: seq<nat>, f: seq<nat>, g: seq<nat>, s: Address, t: Address, p: nat, q: nat,
                         x: Feed, y: Feed)
    requires Fits(ws, f) && Fits(ws, g) && SourceFits(s) && SourceFits(t)
    requires Layout(name, ws, f, s, p, x) == Layout(name, ws, g, t, q, y)
    ensures f == g && s == t && p == q && x == y
  {
    var u, v := SourceBytes(s) + ([p] + x), SourceBytes(t) + ([q] + y);
    SplitEqual(Chars(name), Packed(ws, f) + u, Chars(name), Packed(ws, g) + v);
    PackedPrefix(ws, f, g, u, v);
    TailDetermines(s, t, p, q, x, y);
  }

  /** Agreement in everything the hash covers: integers, source address, type of service, and the host and sub-group
      names run together. */
  predicate SameHashed(a: Group, b: Group)
  {
    && a.numbers == b.numbers && a.source == b.source && a.tos == b.tos
    && Text(a.hosts) + Text(a.subgroups) == Text(b.hosts) + Text(b.subgroups)
  }

  /** Two versions of one group have the same image exactly when all hashed integers and the source address
      agree and their host and sub-group names read the same when run together. */
  lemma SameNameImageIff(a: Group, b: Group)
    requires a.name == b.name && WellTyped(a) && WellTyped(b)
    ensures Image(a) == Image(b) <==> SameHashed(a, b)
  {
    if Image(a) == Image(b) {
      LayoutDetermines(a.name, WIDTHS, a.numbers, b.numbers, a.source, b.source, a.tos, b.tos,
                       Text(a.hosts) + Text(a.subgroups), Text(b.hosts) + Text(b.subgroups));
    }
  }

  /** So the hash cannot see the unhashed fields, nor where one host name ends and the next begins. */
  lemma BlindSpots(g: Group, u: Unhashed, x: string, y: string)
    ensures Image(g.(unhashed := u)) == Image(g)
    ensures Image(g.(hosts := [x, y])) == Image(g.(hosts := [x + y]))
  {
    assert Text([x, y]) == Chars(x) + Chars(y) == Chars(x + y) == Text([x + y]) by {
      assert [x, y][1..] == [y] && [y][1..] == [] && [x + y][1..] == [];
      assert Text([y]) == Chars(y);
    }
  }

  /** Groups with names of one length have the same image exactly when the names are the same and everything else
      the hash covers agrees. */
  lemma EqualLengthImageIff(a: Group, b: Group)
    requires |a.name| == |b.name| && WellTyped(a) && WellTyped(b)
    ensures Image(a) == Image(b) <==> a.name == b.name && SameHashed(a, b)
  {
    if Image(a) == Image(b) {
      SplitEqual(Chars(a.name), Image(a)[|a.name|..], Chars(b.name), Image(b)[|b.name|..]);
      CharsInjective(a.name, b.name);
      SameNameImageIff(a, b);
    } else if a.name == b.name {
      SameNameImageIff(a, b);
    }
  }

  /** So two groups alike in all but their names, of one length, have the same image exactly when they are the same. */
  lemma RenamedImageIff(g: Group, name: string)
    requires |name| == |g.name| && WellTyped(g)
    ensures Image(g.(name := name)) == Image(g) <==> name == g.name
  {
    EqualLengthImageIff(g.(name := name), g);
  }

  lemma CharsInjective(s: string, t: string)
    requires Chars(s) == Chars(t)
    ensures s == t
  {
    assert |s| == |Chars(s)| == |Chars(t)| == |t|;
    forall i | 0 <= i < |s| ensures s[i] == t[i] {
      assert Chars(s)[i] == Chars(t)[i];
    }
  }

  // ----- where each byte is -----

  /** The number of bytes before number k. */
  function Offset(widths: seq<nat>, k: nat): nat
    requires k <= |widths|
  {
    if k == 0 then 0 else widths[0] + Offset(widths[1..], k - 1)
  }

  lemma {:induction false} PackedSize(ws: seq<nat>, ns: seq<nat>)
    requires |ns| == |ws|
    ensures |Packed(ws, ns)| == Offset(ws, |ws|)
  {
    if ns != [] { PackedSize(ws[1..], ns[1..]); }
  }

  /** Byte j of number k. */
  lemma {:induction false} PackedDigit(ws: seq<nat>, ns: seq<nat>, k: nat, j: nat)
    requires |ns| == |ws| && k < |ws| && j < ws[k]
    ensures Offset(ws, k) + j < |Packed(ws, ns)|
    ensures Packed(ws, ns)[Offset(ws, k) + j] == ns[k] / Power256(j) % 256
  {
    if k == 0 {
      LittleDigit(ns[0], ws[0], j);
    } else {
      PackedDigit(ws[1..], ns[1..], k - 1, j);
    }
  }

  lemma {:induction false} OffsetByOne(ws: seq<nat>, k: nat)
    requires k < |ws|
    ensures Offset(ws, k + 1) == Offset(ws, k) + ws[k]
  {
    if k > 0 { OffsetByOne(ws[1..], k - 1); }
  }

  lemma NumbersSize()
    ensures Offset(WIDTHS, |WIDTHS|) == 51
  {
    OffsetsOf(WIDTHS);
  }

  lemma OffsetsOf(ws: seq<nat>)
    requires ws == WIDTHS
    ensures Offset(ws, 14) == 51
  {
    OffsetByOne(ws, 0); OffsetByOne(ws, 1); OffsetByOne(ws, 2); OffsetByOne(ws, 3); OffsetByOne(ws, 4);
    OffsetByOne(ws, 5); OffsetByOne(ws, 6); OffsetByOne(ws, 7); OffsetByOne(ws, 8); OffsetByOne(ws, 9);
    OffsetByOne(ws, 10); OffsetByOne(ws, 11); OffsetByOne(ws, 12); OffsetByOne(ws, 13);
  }

  /** Where everything is in a group's image: the codes of the name, 51 bytes of little-endian integers in the order
      of their widths, the family byte, the address, the type of service, and the names of hosts and then
      sub-groups. */
  lemma ImageLayout(g: Group)
    ensures var n, addr, m := |g.name|, SourceBytes(g.source), |SourceBytes(g.source)|;
            && |Packed(WIDTHS, g.numbers)| == 51
            && |Image(g)| == n + 51 + m + 1 + |Text(g.hosts)| + |Text(g.subgroups)|
            && (forall i :: 0 <= i < n ==> Image(g)[i] == g.name[i] as nat)
            && (forall i :: 0 <= i < 51 ==> Image(g)[n + i] == Packed(WIDTHS, g.numbers)[i])
            && Image(g)[n + 51] == (match g.source case Unset => 0 case V4(_) => 2 case V6(_) => 10)
            && Image(g)[n + 51..n + 51 + m] == addr
            && Image(g)[n + 51 + m] == g.tos
            && Image(g)[n + 51 + m + 1..] == Text(g.hosts) + Text(g.subgroups)
  {
    NumbersSize();
    PackedSize(WIDTHS, g.numbers);
    var packed, addr, names := Packed(WIDTHS, g.numbers), SourceBytes(g.source), Text(g.hosts) + Text(g.subgroups);
    LayoutParts(Chars(g.name), packed, addr, g.tos, names);
  }

  /** Byte j of number k of a group is this digit of it. */
  lemma NumberLayout(g: Group, k: nat, j: nat)
    requires k < |WIDTHS| && j < WIDTHS[k]
    ensures Offset(WIDTHS, k) + j < 51 && |Image(g)| > |g.name| + 51
    ensures Image(g)[|g.name| + Offset(WIDTHS, k) + j] == g.numbers[k] / Power256(j) % 256
  {
    NumbersSize();
    PackedSize(WIDTHS, g.numbers);
    PackedDigit(WIDTHS, g.numbers, k, j);
    ImageLayout(g);
    assert Image(g)[|g.name| + (Offset(WIDTHS, k) + j)] == Packed(WIDTHS, g.numbers)[Offset(WIDTHS, k) + j];
  }

  lemma LayoutParts(name: Feed, packed: Feed, addr: Feed, tos: nat, names: Feed)
    requires addr != []
    ensures var image := name + (packed + (addr + ([tos] + names)));
            var a := |name| + |packed|;
            && |image| == a + |addr| + 1 + |names|
            && (forall i :: 0 <= i < |name| ==> image[i] == name[i])
            && (forall i :: 0 <= i < |packed| ==> image[|name| + i] == packed[i])
            && image[a] == addr[0] && image[a..a + |addr|] == addr
            && image[a + |addr|] == tos && image[a + |addr| + 1..] == names
  {
  }

  /** The bytes of an address: none if it is not set, else four or sixteen of them after the family byte, most
      significant first. */
  lemma SourceLayout(s: Address, i: nat)
    ensures |SourceBytes(s)| == 1 + (match s case Unset => 0 case V4(_) => 4 case V6(_) => 16)
    ensures s.V4? && i < 4 ==> SourceBytes(s)[1 + i] == s.bits / Power256(3 - i) % 256
    ensures s.V6? && i < 16 ==> SourceBytes(s)[1 + i] == s.bits / Power256(15 - i) % 256
  {
    if s.V4? && i < 4 { BigDigit(s.bits, 4, i); }
    if s.V6? && i < 16 { BigDigit(s.bits, 16, i); }
  }

  /** The names are run together: one more name adds its codes at the end. */
  lemma {:induction false} TextAppends(names: seq<string>, last: string)
    ensures Text(names + [last]) == Text(names) + Chars(last)
  {
    if names == [] {
      assert names + [last] == [last] && [last][1..] == [];
    } else {
      TextAppends(names[1..], last);
      assert (names + [last])[1..] == names[1..] + [last];
    }
  }
}
