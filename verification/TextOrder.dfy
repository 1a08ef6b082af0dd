/** The order of character strings. */
module TextOrder {

  predicate Before(a: string, b: string)
  {
    b != [] && (a == [] || a[0] < b[0] || (a[0] == b[0] && Before(a[1..], b[1..])))
  }

  lemma {:induction false} NotBeforeItself(a: string)
    ensures !Before(a, a)
  {
    if a != [] { NotBeforeItself(a[1..]); }
  }

  lemma {:induction false} BeforeTransitive(a: string, b: string, c: string)
    requires Before(a, b) && Before(b, c)
    ensures Before(a, c)
  {
    if a != [] && a[0] == b[0] == c[0] { BeforeTransitive(a[1..], b[1..], c[1..]); }
  }

  lemma {:induction false} BeforeTotal(a: string, b: string)
    ensures a == b || Before(a, b) || Before(b, a)
  {
    if a != [] && b != [] && a[0] == b[0] {
      BeforeTotal(a[1..], b[1..]);
      if a[1..] == b[1..] { assert a == [a[0]] + a[1..] == [b[0]] + b[1..] == b; }
    }
  }

  /** One text is before another exactly when it is a proper prefix of it or smaller at the first place where they
      differ. */
  lemma {:induction false} BeforeIff(a: string, b: string)
    ensures Before(a, b) <==> (a <= b && a != b) || SmallerSomewhere(a, b)
  {
    if a == [] || b == [] {
      assert !SmallerSomewhere(a, b);
    } else {
      var s, t := a[1..], b[1..];
      assert a == [a[0]] + s && b == [b[0]] + t;
      BeforeIff(s, t);
      assert a <= b && a != b <==> a[0] == b[0] && s <= t && s != t;
      SmallerTail(a, b);
    }
  }

  predicate SmallerAt(a: string, b: string, i: nat)
  {
    i < |a| && i < |b| && a[..i] == b[..i] && a[i] < b[i]
  }

  predicate SmallerSomewhere(a: string, b: string) { exists i: nat :: i < |a| && SmallerAt(a, b, i) }

  lemma SmallerTail(a: string, b: string)
    requires a != [] && b != []
    ensures SmallerSomewhere(a, b) <==> a[0] < b[0] || (a[0] == b[0] && SmallerSomewhere(a[1..], b[1..]))
  {
    if SmallerSomewhere(a, b) {
      var i: nat :| i < |a| && SmallerAt(a, b, i);
      if i > 0 {
        assert a[..i][0] == b[..i][0];
        assert a[1..][..i - 1] == a[..i][1..] == b[..i][1..] == b[1..][..i - 1];
        assert SmallerAt(a[1..], b[1..], i - 1);
      }
    }
    if a[0] < b[0] {
      assert SmallerAt(a, b, 0);
    } else if a[0] == b[0] && SmallerSomewhere(a[1..], b[1..]) {
      var i: nat :| i < |a[1..]| && SmallerAt(a[1..], b[1..], i);
      assert a[..i + 1] == [a[0]] + a[1..][..i] == [b[0]] + b[1..][..i] == b[..i + 1];
      assert SmallerAt(a, b, i + 1);
    }
  }
}
