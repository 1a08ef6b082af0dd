/**
 The stackless walk that finds the collapsible child list of a search result.

 A document node is addressed by its path from the element the walk starts at: the empty path
 is that element, and p + [i] is child number i of p.  First child, next sibling and parent are
 then the three path operations the script performs through DOM links.
 */
module ElementWalk {
  import opened Basics

  datatype Element = Element(isDiv: bool, isChildList: bool, children: seq<Element>)

  type Path = seq<nat>

  predicate Matches(e: Element) { e.isDiv && e.isChildList }

  // ----- addressing -----

  predicate Exists(root: Element, p: Path)
  {
    p == [] || (p[0] < |root.children| && Exists(root.children[p[0]], p[1..]))
  }

  function At(root: Element, p: Path): Element
    requires Exists(root, p)
  {
    if p == [] then root else At(root.children[p[0]], p[1..])
  }

  function Parent(p: Path): Path
    requires p != []
  {
    p[..|p| - 1]
  }

  function Last(p: Path): nat
    requires p != []
  {
    p[|p| - 1]
  }

  lemma {:induction false} ParentExists(root: Element, p: Path)
    requires p != [] && Exists(root, p)
    ensures Exists(root, Parent(p))
    ensures Last(p) < |At(root, Parent(p)).children|
    ensures At(root, p) == At(root, Parent(p)).children[Last(p)]
  {
    if |p| > 1 {
      ParentExists(root.children[p[0]], p[1..]);
      assert Parent(p)[1..] == Parent(p[1..]);
    }
  }

  lemma {:induction false} ChildExists(root: Element, p: Path, i: nat)
    requires Exists(root, p)
    ensures Exists(root, p + [i]) <==> i < |At(root, p).children|
    ensures Exists(root, p + [i]) ==> At(root, p + [i]) == At(root, p).children[i]
  {
    if p == [] {
      assert (p + [i])[1..] == [];
    } else {
      ChildExists(root.children[p[0]], p[1..], i);
      assert (p + [i])[1..] == p[1..] + [i];
    }
  }

  // ----- document order -----

  /** Paths below a list of siblings whose every proper ancestor in that list's subtrees is a DIV. */
  predicate Below(siblings: seq<Element>, p: Path)
  {
    p != [] && p[0] < |siblings| &&
    (|p| == 1 || (siblings[p[0]].isDiv && Below(siblings[p[0]].children, p[1..])))
  }

  /** Strict document order: an ancestor precedes its descendants, an earlier sibling a later one. */
  predicate Before(p: Path, q: Path)
  {
    q != [] && (p == [] || p[0] < q[0] || (p[0] == q[0] && Before(p[1..], q[1..])))
  }

  /** The walk's itinerary over children i, i+1, ... of the node at `prefix`. */
  function Itinerary(siblings: seq<Element>, prefix: Path, i: nat): seq<Path>
    requires i <= |siblings|
    decreases siblings, |siblings| - i
  {
    if i == |siblings| then []
    else
      [prefix + [i]]
      + (if siblings[i].isDiv then Itinerary(siblings[i].children, prefix + [i], 0) else [])
      + Itinerary(siblings, prefix, i + 1)
  }

  /** Everything the walk still has to visit once the subtree at p is finished. */
  function Rest(root: Element, p: Path): seq<Path>
    requires Exists(root, p)
    decreases |p|
  {
    if p == [] then []
    else
      ParentExists(root, p);
      Itinerary(At(root, Parent(p)).children, Parent(p), Last(p) + 1) + Rest(root, Parent(p))
  }

  /** Everything the walk visits from p on, p included. */
  function From(root: Element, p: Path): seq<Path>
    requires Exists(root, p)
  {
    [p] + (if At(root, p).isDiv then Itinerary(At(root, p).children, p, 0) else []) + Rest(root, p)
  }

  lemma FromFirstChild(root: Element, p: Path)
    requires Exists(root, p) && At(root, p).children != []
    ensures Exists(root, p + [0])
    ensures From(root, p + [0]) == Itinerary(At(root, p).children, p, 0) + Rest(root, p)
  {
    ChildExists(root, p, 0);
    assert Parent(p + [0]) == p;
    var children := At(root, p).children;
    var sub := if children[0].isDiv then Itinerary(children[0].children, p + [0], 0) else [];
    Regroup([p + [0]], sub, Itinerary(children, p, 1), Rest(root, p));
  }

  lemma Regroup<T>(a: seq<T>, b: seq<T>, c: seq<T>, d: seq<T>)
    ensures a + b + c + d == a + b + (c + d)
  {
  }

  lemma FromNextSibling(root: Element, p: Path, q: Path)
    requires p != [] && Exists(root, p)
    requires q == Parent(p) + [Last(p) + 1] && Exists(root, q)
    ensures Rest(root, p) == From(root, q)
  {
    ParentExists(root, p);
    ParentExists(root, q);
    assert Parent(q) == Parent(p);
    var siblings := At(root, Parent(p)).children;
    var sub := if siblings[Last(q)].isDiv then Itinerary(siblings[Last(q)].children, q, 0) else [];
    Regroup([q], sub, Itinerary(siblings, Parent(p), Last(q) + 1), Rest(root, Parent(p)));
  }

  lemma RestOfLastChild(root: Element, p: Path)
    requires p != [] && Exists(root, p)
    requires !Exists(root, Parent(p) + [Last(p) + 1])
    ensures Exists(root, Parent(p))
    ensures Rest(root, p) == Rest(root, Parent(p))
  {
    ParentExists(root, p);
    ChildExists(root, Parent(p), Last(p) + 1);
  }

  predicate NoMatch(root: Element, ps: seq<Path>)
  {
    forall i :: 0 <= i < |ps| ==> Exists(root, ps[i]) && !Matches(At(root, ps[i]))
  }

  /** Climbs from the last child of a finished subtree, as the inner do-while loop does. */
  method Climb(root: Element, start: Path) returns (element: Path)
    requires start != [] && Exists(root, start)
    requires !Exists(root, Parent(start) + [Last(start) + 1])
    ensures Exists(root, element) && |element| < |start|
    ensures Rest(root, start) == Rest(root, element)
    ensures element == [] || Exists(root, Parent(element) + [Last(element) + 1])
  {
    RestOfLastChild(root, start);
    element := Parent(start);
    while element != [] && !Exists(root, Parent(element) + [Last(element) + 1])
      invariant Exists(root, element) && |element| < |start|
      invariant Rest(root, start) == Rest(root, element)
      decreases |element|
    {
      RestOfLastChild(root, element);
      element := Parent(element);
    }
  }

  /** What is left to visit when the walk stands at p; nothing once it is back at its start. */
  function Remaining(root: Element, p: Path): seq<Path>
    requires Exists(root, p)
  {
    if p == [] then [] else From(root, p)
  }

  /** From a node without a child to enter, the walk goes on with what follows its subtree. */
  lemma FromLeaf(root: Element, p: Path)
    requires Exists(root, p) && !(At(root, p).isDiv && At(root, p).children != [])
    ensures From(root, p) == [p] + Rest(root, p)
  {
    assert [p] + [] + Rest(root, p) == [p] + Rest(root, p);
  }

  /** Where the outer loop goes from a node that is not a match; the empty path ends the walk. */
  method Advance(root: Element, p: Path) returns (next: Path)
    requires p != [] && Exists(root, p)
    ensures Exists(root, next)
    ensures Remaining(root, p) == [p] + Remaining(root, next)
  {
    var here := At(root, p);
    if here.isDiv && here.children != [] {
      FromFirstChild(root, p);
      Regroup([], [p], Itinerary(here.children, p, 0), Rest(root, p));
      return p + [0];
    }
    FromLeaf(root, p);
    next := p;
    if !Exists(root, Parent(p) + [Last(p) + 1]) {
      next := Climb(root, p);
    }
    if next != [] {
      ghost var q := next;
      next := Parent(next) + [Last(next) + 1];
      FromNextSibling(root, q, next);
    }
  }

  /** The script's condition: a DIV of the class SRChildren. */
  predicate ChildListAt(root: Element, p: Path)
  {
    Exists(root, p) && At(root, p).isDiv && At(root, p).isChildList
  }

  /** p is a match reached through DIVs only, and no such match comes earlier in the document. */
  ghost predicate EarliestMatch(root: Element, p: Path)
  {
    && Below(root.children, p) && ChildListAt(root, p)
    && forall q :: Below(root.children, q) && ChildListAt(root, q) ==> q == p || Before(p, q)
  }

  ghost predicate NoReachableMatch(root: Element)
  {
    forall q :: Below(root.children, q) ==> Exists(root, q) && !ChildListAt(root, q)
  }

  /** The walk.  None stands for the script's undefined result. */
  method FindChildElement(root: Element) returns (found: Option<Path>)
    ensures found.Some? ==> EarliestMatch(root, found.value)
    ensures found.None? ==> NoReachableMatch(root)
  {
    ghost var seen: seq<Path> := [];
    var element: Path := [];
    if root.children != [] {
      FromFirstChild(root, []);
      element := [0];
      assert [] + [0] == element;
    }
    while element != []
      invariant Exists(root, element)
      invariant Itinerary(root.children, [], 0) == seen + Remaining(root, element)
      invariant NoMatch(root, seen)
      decreases |Remaining(root, element)|
    {
      if Matches(At(root, element)) {
        FirstMatchIsEarliest(root, seen, element);
        return Some(element);
      }
      ghost var here := element;
      element := Advance(root, element);
      Shift(seen, here, Remaining(root, element));
      seen := seen + [here];
    }
    NothingMissed(root, seen);
    return None;
  }

  lemma Shift<T>(a: seq<T>, x: T, b: seq<T>)
    ensures a + ([x] + b) == a + [x] + b
  {
  }

  // ----- the itinerary lists the reachable nodes, each once, in document order -----

  lemma {:induction false} BeforeExtend(prefix: Path, p: Path, q: Path)
    ensures Before(prefix + p, prefix + q) <==> Before(p, q)
  {
    if prefix == [] {
      assert prefix + p == p && prefix + q == q;
    } else {
      BeforeExtend(prefix[1..], p, q);
      assert (prefix + p)[1..] == prefix[1..] + p && (prefix + q)[1..] == prefix[1..] + q;
    }
  }

  /** What it means for a path to lie in the itinerary of children i, i+1, ... of `prefix`. */
  predicate Listed(siblings: seq<Element>, prefix: Path, i: nat, q: Path)
  {
    prefix < q && i <= q[|prefix|] && Below(siblings, q[|prefix|..])
  }

  lemma ListedHead(siblings: seq<Element>, prefix: Path, i: nat, q: Path)
    requires i < |siblings|
    ensures Listed(siblings, prefix, i, q) <==>
            || q == prefix + [i]
            || (siblings[i].isDiv && Listed(siblings[i].children, prefix + [i], 0, q))
            || Listed(siblings, prefix, i + 1, q)
  {
    if prefix < q {
      var r := q[|prefix|..];
      assert q == prefix + r;
      if r[0] == i {
        assert prefix + [i] <= q;
        if |r| == 1 {
          assert q == prefix + [i];
        } else {
          assert q[|prefix + [i]|..] == r[1..];
        }
      }
    }
  }

  lemma {:induction false} ItineraryContents(siblings: seq<Element>, prefix: Path, i: nat, q: Path)
    requires i <= |siblings|
    ensures q in Itinerary(siblings, prefix, i) <==> Listed(siblings, prefix, i, q)
    decreases siblings, |siblings| - i
  {
    if i < |siblings| {
      var sub := if siblings[i].isDiv then Itinerary(siblings[i].children, prefix + [i], 0) else [];
      ListedHead(siblings, prefix, i, q);
      InConcat([prefix + [i]], sub, Itinerary(siblings, prefix, i + 1), q);
      ItineraryContents(siblings[i].children, prefix + [i], 0, q);
      ItineraryContents(siblings, prefix, i + 1, q);
    }
  }

  lemma InConcat<T>(a: seq<T>, b: seq<T>, c: seq<T>, x: T)
    ensures x in a + b + c <==> x in a || x in b || x in c
  {
  }

  predicate InDocumentOrder(ps: seq<Path>)
  {
    forall a, b :: 0 <= a < b < |ps| ==> Before(ps[a], ps[b])
  }

  lemma OrderedConcat(ps: seq<Path>, qs: seq<Path>)
    requires InDocumentOrder(ps) && InDocumentOrder(qs)
    requires forall p, q :: p in ps && q in qs ==> Before(p, q)
    ensures InDocumentOrder(ps + qs)
  {
  }

  lemma {:induction false} ItineraryOrdered(siblings: seq<Element>, prefix: Path, i: nat)
    requires i <= |siblings|
    ensures InDocumentOrder(Itinerary(siblings, prefix, i))
    decreases siblings, |siblings| - i
  {
    if i < |siblings| {
      var head := prefix + [i];
      var sub := if siblings[i].isDiv then Itinerary(siblings[i].children, head, 0) else [];
      var later := Itinerary(siblings, prefix, i + 1);
      ItineraryOrdered(siblings[i].children, head, 0);
      ItineraryOrdered(siblings, prefix, i + 1);
      forall p | p in sub ensures head < p {
        ItineraryContents(siblings[i].children, head, 0, p);
      }
      forall p | p in sub ensures Before(head, p) { ParentFirst(head, p); }
      OrderedConcat([head], sub);
      forall p, q | p in [head] + sub && q in later ensures Before(p, q) {
        ItineraryContents(siblings, prefix, i + 1, q);
        EarlierChildFirst(prefix, i, p, q);
      }
      OrderedConcat([head] + sub, later);
    }
  }

  lemma ParentFirst(head: Path, p: Path)
    requires head < p
    ensures Before(head, p)
  {
    assert p == head + p[|head|..] && head == head + [];
    BeforeExtend(head, [], p[|head|..]);
  }

  lemma EarlierChildFirst(prefix: Path, i: nat, p: Path, q: Path)
    requires prefix + [i] <= p && prefix < q && i < q[|prefix|]
    ensures Before(p, q)
  {
    assert p[|prefix|] == (prefix + [i])[|prefix|] == i;
    assert p == prefix + p[|prefix|..] && q == prefix + q[|prefix|..];
    BeforeExtend(prefix, p[|prefix|..], q[|prefix|..]);
  }

  lemma FirstMatchIsEarliest(root: Element, seen: seq<Path>, p: Path)
    requires Exists(root, p) && NoMatch(root, seen)
    requires Itinerary(root.children, [], 0) == seen + From(root, p)
    requires Matches(At(root, p))
    ensures EarliestMatch(root, p)
  {
    var all := Itinerary(root.children, [], 0);
    assert all[|seen|] == p;
    ItineraryOrdered(root.children, [], 0);
    ItineraryContents(root.children, [], 0, p);
    assert p[0..] == p;
    forall q | Below(root.children, q) && ChildListAt(root, q)
      ensures q == p || Before(p, q)
    {
      assert q[0..] == q;
      ItineraryContents(root.children, [], 0, q);
      assert forall j :: 0 <= j < |seen| ==> seen[j] != q && seen[j] == all[j];
      var k :| 0 <= k < |all| && all[k] == q;
      assert k >= |seen|;
    }
  }

  lemma NothingMissed(root: Element, seen: seq<Path>)
    requires Itinerary(root.children, [], 0) == seen && NoMatch(root, seen)
    ensures NoReachableMatch(root)
  {
    forall q | Below(root.children, q) ensures Exists(root, q) && !ChildListAt(root, q) {
      assert q[0..] == q;
      ItineraryContents(root.children, [], 0, q);
    }
  }
}
