/**
 The timeout queue of the event loop: a binary heap ordered by an inverted comparison, so that
 the entry the heap calls greatest is the one with the earliest time.
 */
module TimeoutHeap {

  datatype TimeoutKind = HealthCheck | Dns | DnsV6 | RemoteCheck | RemoteHostCheck

  /** A timeout for a host or host group; `detail` stands for the address, host check or lookup it carries. */
  datatype Timeout = Timeout(kind: TimeoutKind, host: string, detail: string, when: int)

  /** The heap's comparison: a timeout is less than one that fires before it. */
  predicate Less(a: Timeout, b: Timeout) { a.when > b.when }

  predicate IsEarliest(t: Timeout, q: multiset<Timeout>)
  {
    t in q && forall u :: u in q ==> t.when <= u.when
  }

  function ParentOf(i: nat): nat
    requires i > 0
  {
    (i - 1) / 2
  }

  /** The heap order of section 25.4.6 of ISO C++14: no element is less than one below it. */
  predicate HeapOrder(h: seq<Timeout>)
  {
    forall i :: 0 < i < |h| ==> !Less(h[ParentOf(i)], h[i])
  }

  /** Heap order except that the element at k may be greater than its parent. */
  predicate OrderButUp(h: seq<Timeout>, k: nat)
  {
    && (forall i :: 0 < i < |h| && i != k ==> !Less(h[ParentOf(i)], h[i]))
    && (forall i :: 0 < i < |h| && 0 < k && ParentOf(i) == k ==> !Less(h[ParentOf(k)], h[i]))
  }

  /** Heap order except that the element at k may be less than its children. */
  predicate OrderButDown(h: seq<Timeout>, k: nat)
  {
    && (forall i :: 0 < i < |h| && ParentOf(i) != k ==> !Less(h[ParentOf(i)], h[i]))
    && (forall i :: 0 < i < |h| && 0 < k < |h| && ParentOf(i) == k ==> !Less(h[ParentOf(k)], h[i]))
  }

  function Swap(h: seq<Timeout>, i: nat, j: nat): (r: seq<Timeout>)
    requires i < |h| && j < |h|
    ensures |r| == |h| && multiset(r) == multiset(h)
  {
    SwapKeepsContents(h, i, j);
    h[i := h[j]][j := h[i]]
  }

  lemma SwapKeepsContents(h: seq<Timeout>, i: nat, j: nat)
    requires i < |h| && j < |h|
    ensures multiset(h[i := h[j]][j := h[i]]) == multiset(h)
  {
  }

  lemma UpStep(h: seq<Timeout>, k: nat)
    requires 0 < k < |h| && OrderButUp(h, k) && Less(h[ParentOf(k)], h[k])
    ensures OrderButUp(Swap(h, k, ParentOf(k)), ParentOf(k))
  {
    var p, r := ParentOf(k), Swap(h, k, ParentOf(k));
    forall i | 0 < i < |r| && i != p ensures !Less(r[ParentOf(i)], r[i]) {
      assert i != k ==> !Less(h[ParentOf(i)], h[i]);
    }
    forall i | 0 < i < |r| && 0 < p && ParentOf(i) == p ensures !Less(r[ParentOf(p)], r[i]) {
      assert !Less(h[ParentOf(p)], h[p]);
      assert i != k ==> !Less(h[ParentOf(i)], h[i]);
    }
  }

  lemma DownStep(h: seq<Timeout>, k: nat, c: nat)
    requires k < c < |h| && ParentOf(c) == k && OrderButDown(h, k) && Less(h[k], h[c])
    requires forall i :: 0 < i < |h| && ParentOf(i) == k ==> !Less(h[c], h[i])
    ensures OrderButDown(Swap(h, k, c), c)
  {
    var r := Swap(h, k, c);
    forall i | 0 < i < |r| && ParentOf(i) != c ensures !Less(r[ParentOf(i)], r[i]) {
      if i == k {
        assert !Less(h[ParentOf(k)], h[c]);
      } else if ParentOf(i) != k {
        assert !Less(h[ParentOf(i)], h[i]);
      }
    }
    forall i | 0 < i < |r| && ParentOf(i) == c ensures !Less(r[ParentOf(c)], r[i]) {
      assert !Less(h[ParentOf(i)], h[i]);
    }
  }

  /** The greater of the children of k, or |h| when k is a leaf. */
  function GreaterChild(h: seq<Timeout>, k: nat): (c: nat)
    requires k < |h|
    ensures c < |h| ==> k < c && ParentOf(c) == k
    ensures forall i :: 0 < i < |h| && ParentOf(i) == k ==> c < |h| && !Less(h[c], h[i])
  {
    var c := 2 * k + 1;
    if c >= |h| then |h|
    else if c + 1 < |h| && Less(h[c], h[c + 1]) then c + 1
    else c
  }

  lemma DownDone(h: seq<Timeout>, k: nat)
    requires k < |h| && OrderButDown(h, k)
    requires GreaterChild(h, k) < |h| ==> !Less(h[k], h[GreaterChild(h, k)])
    ensures HeapOrder(h)
  {
    var c := GreaterChild(h, k);
    forall i | 0 < i < |h| ensures !Less(h[ParentOf(i)], h[i]) {
      if ParentOf(i) == k { assert !Less(h[c], h[i]); }
    }
  }

  predicate TimeOrdered(ts: seq<Timeout>)
  {
    forall i, j :: 0 <= i < j < |ts| ==> ts[i].when <= ts[j].when
  }

  predicate AllBefore(ts: seq<Timeout>, q: multiset<Timeout>)
  {
    forall i, u :: 0 <= i < |ts| && u in q ==> ts[i].when <= u.when
  }

  lemma FireNext(ts: seq<Timeout>, t: Timeout, q: multiset<Timeout>)
    requires TimeOrdered(ts) && AllBefore(ts, q) && IsEarliest(t, q)
    ensures TimeOrdered(ts + [t]) && AllBefore(ts + [t], q - multiset{t})
    ensures multiset(ts + [t]) + (q - multiset{t}) == multiset(ts) + q
  {
    forall i, u | 0 <= i < |ts + [t]| && u in q - multiset{t} ensures (ts + [t])[i].when <= u.when {
      assert u in q;
    }
  }

  lemma {:induction false} RootIsEarliest(h: seq<Timeout>, i: nat)
    requires HeapOrder(h) && i < |h|
    ensures h[0].when <= h[i].when
  {
    if i > 0 {
      RootIsEarliest(h, ParentOf(i));
      assert !Less(h[ParentOf(i)], h[i]);
    }
  }

  lemma RootIsEarliestOfAll(h: seq<Timeout>)
    requires HeapOrder(h) && h != []
    ensures IsEarliest(h[0], multiset(h))
  {
    forall u | u in multiset(h) ensures h[0].when <= u.when {
      var i :| 0 <= i < |h| && h[i] == u;
      RootIsEarliest(h, i);
    }
  }

  class TimeoutQueue {
    var heap: seq<Timeout>

    ghost predicate Valid()
      reads this
    {
      HeapOrder(heap)
    }

    constructor ()
      ensures Valid() && heap == []
    {
      heap := [];
    }

    method Top() returns (t: Timeout)
      requires Valid() && heap != []
      ensures t == heap[0] && IsEarliest(t, multiset(heap))
    {
      RootIsEarliestOfAll(heap);
      t := heap[0];
    }

    method Push(t: Timeout)
      requires Valid()
      modifies this
      ensures Valid()
      ensures multiset(heap) == old(multiset(heap)) + multiset{t}
    {
      heap := heap + [t];
      var k := |heap| - 1;
      assert OrderButUp(heap, k) by {
        forall i | 0 < i < |heap| && i != k ensures !Less(heap[ParentOf(i)], heap[i]) {
          assert !Less(old(heap)[ParentOf(i)], old(heap)[i]);
        }
      }
      while k > 0 && Less(heap[ParentOf(k)], heap[k])
        invariant 0 <= k < |heap|
        invariant OrderButUp(heap, k)
        invariant multiset(heap) == old(multiset(heap)) + multiset{t}
      {
        UpStep(heap, k);
        heap := Swap(heap, k, ParentOf(k));
        k := ParentOf(k);
      }
    }

    method Pop()
      requires Valid() && heap != []
      modifies this
      ensures Valid()
      ensures multiset(heap) == old(multiset(heap)) - multiset{old(heap[0])}
    {
      var last := |heap| - 1;
      ghost var h := heap;
      assert h == h[..last] + [h[last]];
      if last == 0 {
        heap := [];
        return;
      }
      heap := heap[..last][0 := heap[last]];
      assert multiset(heap) == multiset(h) - multiset{h[0]} by {
        assert h[..last] == [h[0]] + h[1..last];
        assert heap == [h[last]] + h[1..last];
      }
      SiftDown();
    }

    method SiftDown()
      requires heap != [] && OrderButDown(heap, 0)
      modifies this
      ensures Valid() && multiset(heap) == old(multiset(heap))
    {
      var k := 0;
      var c := GreaterChild(heap, k);
      while c < |heap| && Less(heap[k], heap[c])
        invariant 0 <= k < |heap| && c == GreaterChild(heap, k)
        invariant OrderButDown(heap, k)
        invariant multiset(heap) == old(multiset(heap))
        decreases |heap| - k
      {
        DownStep(heap, k, c);
        heap := Swap(heap, k, c);
        k := c;
        c := GreaterChild(heap, k);
      }
      DownDone(heap, k);
    }

    /** Empties the queue in firing order. */
    method Drain() returns (fired: seq<Timeout>)
      requires Valid()
      modifies this
      ensures heap == []
      ensures multiset(fired) == old(multiset(heap)) && TimeOrdered(fired)
    {
      fired := [];
      while heap != []
        invariant Valid()
        invariant multiset(fired) + multiset(heap) == old(multiset(heap))
        invariant TimeOrdered(fired) && AllBefore(fired, multiset(heap))
        decreases |multiset(heap)|
      {
        var t := Top();
        FireNext(fired, t, multiset(heap));
        Pop();
        fired := fired + [t];
      }
    }
  }
}
