/**
 The orderings behind the check list's two multimaps.

 A multimap groups its elements by the equivalence of its ordering.  The list's own ordering must
 be a strict weak order whose equivalence is equality of host, host check and DNS type; the secondary
 index uses the plain ordering of pairs.
 */
module CheckOrder {
  import opened Basics
  import opened CheckList
  import opened TextOrder

  /** The number of the address family. */
  function Family(a: Address): nat
  {
    match a
    case Unset => 0
    case V4(_) => 2
    case V6(_) => 10
  }

  function Bits(a: Address): nat { if a.Unset? then 0 else a.bits }

  /** Addresses are ordered by family and then by their bytes, most significant first. */
  predicate AddressLess(a: Address, b: Address)
  {
    if Family(a) == Family(b) then Bits(a) < Bits(b) else Family(a) < Family(b)
  }

  /** The ordering of host checks. */
  predicate CheckLess(a: HostCheck, b: HostCheck)
  {
    if a.checkType == b.checkType then
      if a.port == b.port then
        if a.dualstack == b.dualstack then
          if a.checkInfo == b.checkInfo then
            if a.remoteCheck == b.remoteCheck then
              if a.source == b.source then
                if a.tos == b.tos then
                  if a.fallback == b.fallback then a.flow < b.flow
                  else a.fallback < b.fallback
                else a.tos < b.tos
              else AddressLess(a.source, b.source)
            else Before(a.remoteCheck, b.remoteCheck)
          else Before(a.checkInfo, b.checkInfo)
        else a.dualstack < b.dualstack
      else a.port < b.port
    else a.checkType < b.checkType
  }

  datatype Key = Key(host: string, check: HostCheck)

  /** The ordering of the list. */
  predicate KeyLess(a: Key, b: Key)
  {
    if a.host == b.host then
      if SameCheck(a.check, b.check) then a.check.dnsType < b.check.dnsType
      else CheckLess(a.check, b.check)
    else Before(a.host, b.host)
  }

  /** The ordering of the secondary index. */
  predicate PairLess(a: Key, b: Key)
  {
    Before(a.host, b.host) || (!Before(b.host, a.host) && CheckLess(a.check, b.check))
  }

  // ----- lexicographic order of field lists -----

  datatype Field = Num(n: nat) | Text(s: string)

  predicate FieldLess(a: Field, b: Field)
  {
    match (a, b)
    case (Num(m), Num(n)) => m < n
    case (Text(s), Text(t)) => Before(s, t)
    case _ => false
  }

  predicate LexLess(a: seq<Field>, b: seq<Field>)
    requires |a| == |b|
  {
    a != [] && (if a[0] == b[0] then LexLess(a[1..], b[1..]) else FieldLess(a[0], b[0]))
  }

  predicate SameShape(a: seq<Field>, b: seq<Field>)
  {
    |a| == |b| && forall i :: 0 <= i < |a| ==> a[i].Num? == b[i].Num?
  }

  lemma {:induction false} LexIrreflexive(a: seq<Field>)
    ensures !LexLess(a, a)
  {
    if a != [] { LexIrreflexive(a[1..]); }
  }

  lemma FieldTransitive(a: Field, b: Field, c: Field)
    requires FieldLess(a, b) && FieldLess(b, c)
    ensures FieldLess(a, c) && a != c
  {
    if a.Text? {
      BeforeTransitive(a.s, b.s, c.s);
      NotBeforeItself(a.s);
    }
  }

  lemma {:induction false} LexTransitive(a: seq<Field>, b: seq<Field>, c: seq<Field>)
    requires |a| == |b| == |c| && LexLess(a, b) && LexLess(b, c)
    ensures LexLess(a, c)
  {
    if a[0] == b[0] == c[0] {
      LexTransitive(a[1..], b[1..], c[1..]);
    } else if a[0] != b[0] && b[0] != c[0] {
      FieldTransitive(a[0], b[0], c[0]);
    }
  }

  lemma {:induction false} LexTotal(a: seq<Field>, b: seq<Field>)
    requires SameShape(a, b)
    ensures a == b || LexLess(a, b) || LexLess(b, a)
  {
    if a != [] {
      if a[0] == b[0] {
        LexTotal(a[1..], b[1..]);
        if a[1..] == b[1..] { assert a == [a[0]] + a[1..] == [b[0]] + b[1..] == b; }
      } else if a[0].Text? {
        BeforeTotal(a[0].s, b[0].s);
      }
    }
  }

  /** The first difference decides. */
  lemma {:induction false} LexAt(a: seq<Field>, b: seq<Field>, k: nat)
    requires |a| == |b| && k < |a| && a[k] != b[k] && forall i :: 0 <= i < k ==> a[i] == b[i]
    ensures LexLess(a, b) == FieldLess(a[k], b[k])
  {
    if k > 0 {
      assert forall i :: 0 <= i < k - 1 ==> a[1..][i] == a[i + 1] && b[1..][i] == b[i + 1];
      LexAt(a[1..], b[1..], k - 1);
    }
  }

  lemma {:induction false} LexAppend(x: seq<Field>, y: seq<Field>, a: Field, b: Field)
    requires |x| == |y|
    ensures LexLess(x + [a], y + [b]) == if x == y then a != b && FieldLess(a, b) else LexLess(x, y)
  {
    if x == [] {
      assert x + [a] == [a] && y + [b] == [b] && [a][1..] == [];
    } else {
      assert (x + [a])[1..] == x[1..] + [a] && (y + [b])[1..] == y[1..] + [b];
      LexAppend(x[1..], y[1..], a, b);
      if x[0] == y[0] && x[1..] == y[1..] { assert x == [x[0]] + x[1..] == [y[0]] + y[1..] == y; }
    }
  }

  // ----- the code's orderings are lexicographic -----

  function CheckFields(c: HostCheck): seq<Field>
  {
    [Num(c.checkType), Num(c.port), Num(c.dualstack), Text(c.checkInfo), Text(c.remoteCheck),
     Num(Family(c.source)), Num(Bits(c.source)), Num(c.tos), Num(c.fallback), Num(c.flow)]
  }

  lemma SameCheckFields(a: HostCheck, b: HostCheck)
    ensures SameCheck(a, b) <==> CheckFields(a) == CheckFields(b)
    ensures SameShape(CheckFields(a), CheckFields(b))
  {
    var f, g := CheckFields(a), CheckFields(b);
    if f == g {
      assert f[0] == g[0] && f[1] == g[1] && f[2] == g[2] && f[3] == g[3] && f[4] == g[4];
      assert f[5] == g[5] && f[6] == g[6] && f[7] == g[7] && f[8] == g[8] && f[9] == g[9];
    }
  }

  lemma CheckLessIsLex(a: HostCheck, b: HostCheck)
    ensures CheckLess(a, b) == LexLess(CheckFields(a), CheckFields(b))
  {
    var f, g := CheckFields(a), CheckFields(b);
    if a.checkType != b.checkType { LexAt(f, g, 0); }
    else if a.port != b.port { LexAt(f, g, 1); }
    else if a.dualstack != b.dualstack { LexAt(f, g, 2); }
    else if a.checkInfo != b.checkInfo { LexAt(f, g, 3); }
    else if a.remoteCheck != b.remoteCheck { LexAt(f, g, 4); }
    else if Family(a.source) != Family(b.source) { LexAt(f, g, 5); }
    else if Bits(a.source) != Bits(b.source) { LexAt(f, g, 6); }
    else if a.tos != b.tos { LexAt(f, g, 7); }
    else if a.fallback != b.fallback { LexAt(f, g, 8); }
    else if a.flow != b.flow { LexAt(f, g, 9); }
    else { LexIrreflexive(f); }
  }

  function PairFields(k: Key): seq<Field> { [Text(k.host)] + CheckFields(k.check) }

  function KeyFields(k: Key): seq<Field> { PairFields(k) + [Num(k.check.dnsType)] }

  lemma PairCons(a: Key, b: Key)
    ensures LexLess(PairFields(a), PairFields(b)) ==
            if a.host == b.host then LexLess(CheckFields(a.check), CheckFields(b.check)) else Before(a.host, b.host)
    ensures PairFields(a) == PairFields(b) <==> a.host == b.host && SameCheck(a.check, b.check)
    ensures SameShape(PairFields(a), PairFields(b))
  {
    var f, g := PairFields(a), PairFields(b);
    assert f[1..] == CheckFields(a.check) && g[1..] == CheckFields(b.check);
    SameCheckFields(a.check, b.check);
    if f == g { assert f[0] == g[0]; }
  }

  lemma PairLessIsLex(a: Key, b: Key)
    ensures PairLess(a, b) == LexLess(PairFields(a), PairFields(b))
  {
    PairCons(a, b);
    CheckLessIsLex(a.check, b.check);
    BeforeTotal(a.host, b.host);
    NotBeforeItself(a.host);
    if Before(a.host, b.host) && Before(b.host, a.host) { BeforeTransitive(a.host, b.host, a.host); }
  }

  lemma KeyLessIsLex(a: Key, b: Key)
    ensures KeyLess(a, b) == LexLess(KeyFields(a), KeyFields(b))
  {
    PairCons(a, b);
    CheckLessIsLex(a.check, b.check);
    LexAppend(PairFields(a), PairFields(b), Num(a.check.dnsType), Num(b.check.dnsType));
  }

  predicate SameListKey(a: Key, b: Key) { a.host == b.host && SameKey(a.check, b.check) }

  predicate SamePair(a: Key, b: Key) { a.host == b.host && SameCheck(a.check, b.check) }

  lemma KeyFieldsSame(a: Key, b: Key)
    ensures KeyFields(a) == KeyFields(b) <==> SameListKey(a, b)
    ensures SameShape(KeyFields(a), KeyFields(b))
  {
    PairCons(a, b);
    var f, g := KeyFields(a), KeyFields(b);
    var n := |PairFields(a)|;
    assert f[..n] == PairFields(a) && g[..n] == PairFields(b);
    if f == g { assert f[n] == g[n]; }
    forall i | 0 <= i < |f| ensures f[i].Num? == g[i].Num? {
      if i < n { assert f[i] == PairFields(a)[i] && g[i] == PairFields(b)[i]; }
    }
  }

  /** The list's comparison is a strict weak order, and its equivalence classes, which are what a search by key
      visits, are exactly the keys with the same host, host check and DNS type. */
  lemma ListOrdering(a: Key, b: Key, c: Key)
    ensures !KeyLess(a, a)
    ensures KeyLess(a, b) && KeyLess(b, c) ==> KeyLess(a, c)
    ensures !KeyLess(a, b) && !KeyLess(b, a) <==> SameListKey(a, b)
  {
    KeyLessIsLex(a, a);
    KeyLessIsLex(a, b);
    KeyLessIsLex(b, a);
    KeyLessIsLex(b, c);
    KeyLessIsLex(a, c);
    LexIrreflexive(KeyFields(a));
    KeyFieldsSame(a, b);
    LexTotal(KeyFields(a), KeyFields(b));
    if KeyLess(a, b) && KeyLess(b, c) { LexTransitive(KeyFields(a), KeyFields(b), KeyFields(c)); }
  }

  /** The secondary index's comparison is one too, and its classes do not tell DNS types apart. */
  lemma SecondaryOrdering(a: Key, b: Key, c: Key)
    ensures !PairLess(a, a)
    ensures PairLess(a, b) && PairLess(b, c) ==> PairLess(a, c)
    ensures !PairLess(a, b) && !PairLess(b, a) <==> SamePair(a, b)
  {
    PairLessIsLex(a, a);
    PairLessIsLex(a, b);
    PairLessIsLex(b, a);
    PairLessIsLex(b, c);
    PairLessIsLex(a, c);
    LexIrreflexive(PairFields(a));
    PairCons(a, b);
    LexTotal(PairFields(a), PairFields(b));
    if PairLess(a, b) && PairLess(b, c) { LexTransitive(PairFields(a), PairFields(b), PairFields(c)); }
  }
}
