/** When an address of a host can be in a group's cache twice, over every history. */
module GroupKeys {
  import opened Basics
  import opened GroupStore
  import opened GroupHistory
  import opened GroupReaders

  // ----- no address twice: step by step -----

  predicate KeyAt(e: Entry, h: string, a: Address) { e.host == h && e.addr == a }

  predicate HasKey(es: seq<Entry>, h: string, a: Address)
  {
    exists i :: 0 <= i < |es| && KeyAt(es[i], h, a)
  }

  predicate Distinct(es: seq<Entry>)
  {
    forall i, j :: 0 <= i < j < |es| ==> !KeyAt(es[i], es[j].host, es[j].addr)
  }

  /** The update takes over a placeholder that stands before an entry of its own address. */
  predicate TakesOver(es: seq<Entry>, u: Update)
  {
    exists k, j :: 0 <= k < j < |es| && FirstReplaced(es, u, k) && es[k].addr != u.addr && KeyAt(es[j], u.host, u.addr)
  }

  lemma DistinctAfterInsertIff(es: seq<Entry>, e: Entry)
    requires Distinct(es)
    ensures Distinct(es + [e]) <==> !HasKey(es, e.host, e.addr)
  {
    var r := es + [e];
    if HasKey(es, e.host, e.addr) {
      var i :| 0 <= i < |es| && KeyAt(es[i], e.host, e.addr);
      assert KeyAt(r[i], r[|es|].host, r[|es|].addr);
    }
  }

  lemma DistinctAfterMergeIff(es: seq<Entry>, u: Update, k: nat)
    requires Distinct(es) && k < |es| && FirstReplaced(es, u, k)
    ensures Distinct(es[k := Merged(es[k], u)]) <==> !TakesOver(es, u)
  {
    var r := es[k := Merged(es[k], u)];
    if TakesOver(es, u) {
      var i, j :| 0 <= i < j < |es| && FirstReplaced(es, u, i) && es[i].addr != u.addr && KeyAt(es[j], u.host, u.addr);
      assert i == k;
      assert KeyAt(r[k], r[j].host, r[j].addr);
    } else {
      forall i, j | 0 <= i < j < |r| ensures !KeyAt(r[i], r[j].host, r[j].addr) {
        assert !KeyAt(es[i], es[j].host, es[j].addr);
        if j == k { assert !Replaces(u, es[i]); }
      }
    }
  }

  /** Merging an update keeps addresses distinct exactly when it does not take over a placeholder that stands before
      an entry of its address. */
  lemma DistinctAfterPutIff(es: seq<Entry>, u: Update, now: int)
    requires Distinct(es)
    ensures Distinct(Put(es, u, now)) <==> !TakesOver(es, u)
  {
    if AnyReplaced(es, u) {
      var k := SomeFirstReplaced(es, u);
      PutAtFirst(es, u, now, k);
      DistinctAfterMergeIff(es, u, k);
    } else {
      PutAppended(es, u, now);
      forall i | 0 <= i < |es| ensures !KeyAt(es[i], u.host, u.addr) { assert !Replaces(u, es[i]); }
      DistinctAfterInsertIff(es, NewEntry(u, now));
    }
  }

  lemma SameKeysDistinct(a: seq<Entry>, b: seq<Entry>)
    requires |a| == |b| && forall i :: 0 <= i < |a| ==> KeyAt(a[i], b[i].host, b[i].addr)
    ensures Distinct(a) <==> Distinct(b)
  {
    if Distinct(a) {
      forall i, j | 0 <= i < j < |b| ensures !KeyAt(b[i], b[j].host, b[j].addr) {
        assert !KeyAt(a[i], a[j].host, a[j].addr);
      }
    }
    if Distinct(b) {
      forall i, j | 0 <= i < j < |a| ensures !KeyAt(a[i], a[j].host, a[j].addr) {
        assert !KeyAt(b[i], b[j].host, b[j].addr);
      }
    }
  }

  /** Sharing a result keeps them distinct exactly when it inserts nothing, or once where its header's address was
      not there. */
  lemma DistinctAfterShareIff(es: seq<Entry>, e: Entry, addr: Address, n: nat)
    requires Distinct(es)
    ensures Distinct(ShareInto(es, e, addr, n)) <==> n == 0 || (n == 1 && !HasKey(es, e.host, e.addr))
  {
    var f, r := Refreshed(es, e, addr), ShareInto(es, e, addr, n);
    SameKeysDistinct(es, f);
    if n == 0 {
      assert r == f;
    } else if n == 1 {
      assert r == f + [e];
      DistinctAfterInsertIff(f, e);
      SameKeysHeld(es, f, e.host, e.addr);
    } else {
      assert r[|es|] == e && r[|es| + 1] == e;
      assert KeyAt(r[|es|], r[|es| + 1].host, r[|es| + 1].addr);
    }
  }

  lemma SameKeysHeld(a: seq<Entry>, b: seq<Entry>, h: string, x: Address)
    requires |a| == |b| && forall i :: 0 <= i < |a| ==> KeyAt(a[i], b[i].host, b[i].addr)
    ensures HasKey(a, h, x) <==> HasKey(b, h, x)
  {
    if HasKey(a, h, x) { var i :| 0 <= i < |a| && KeyAt(a[i], h, x); assert KeyAt(b[i], h, x); }
    if HasKey(b, h, x) { var i :| 0 <= i < |b| && KeyAt(b[i], h, x); assert KeyAt(a[i], h, x); }
  }

  lemma WithoutDistinct(es: seq<Entry>, k: nat)
    requires Distinct(es) && k < |es|
    ensures Distinct(Without(es, k))
  {
    var r := Without(es, k);
    forall i, j | 0 <= i < j < |r| ensures !KeyAt(r[i], r[j].host, r[j].addr) {
      var x, y := if i < k then i else i + 1, if j < k then j else j + 1;
      assert r[i] == es[x] && r[j] == es[y];
      assert !KeyAt(es[x], es[y].host, es[y].addr);
    }
  }

  // ----- no address twice: whole histories -----

  /** What an event must meet at its point in the history so as not to put an address there twice. */
  predicate Harmless(t: State, g: Group, e: Event)
  {
    var es := t.s.entries;
    match e
    case ScanSection(u, valid, _) =>
      t.pass == Idle && (valid || !g.dnsFlow) && AnyReplaced(es, u) ==> !TakesOver(es, u)
    case InsertSection(_) => t.pass.Scanned? && !t.pass.scan.found ==> !HasKey(es, t.pass.u.host, t.pass.u.addr)
    case Read => t.s.stored.Some? ==> Distinct(FromRecords(t.s.stored.value))
    case Shared(f, _, n) => n == 0 || (n == 1 && !HasKey(es, f.host, f.addr))
    case Replaced(fs, _) => Distinct(fs)
    case _ => true
  }

  lemma StepDistinctIff(t: State, g: Group, policy: Policy, e: Event)
    requires Distinct(t.s.entries)
    ensures Distinct(Step(t, g, policy, e).s.entries) <==> Harmless(t, g, e)
  {
    var es := t.s.entries;
    match e {
      case ScanSection(u, valid, now) => DistinctAfterPutIff(es, u, now);
      case InsertSection(now) => if t.pass.Scanned? { DistinctAfterInsertIff(es, NewEntry(t.pass.u, now)); }
      case CleanSection(now) => SameKeysDistinct(es, Cleaned(es, now));
      case Shared(f, addr, n) => DistinctAfterShareIff(es, f, addr, n);
      case Purged(h, a, ok) => if FirstAt(es, h, a) < |es| { WithoutDistinct(es, FirstAt(es, h, a)); }
      case _ =>
    }
  }

  predicate DistinctThroughout(start: State, g: Group, policy: Policy, events: seq<Event>)
  {
    forall k :: 0 <= k <= |events| ==> DistinctAt(start, g, policy, events[..k])
  }

  predicate HarmlessThroughout(start: State, g: Group, policy: Policy, events: seq<Event>)
  {
    forall k :: 0 <= k < |events| ==> Harmless(After(start, g, policy, events[..k]), g, events[k])
  }

  predicate DistinctAt(start: State, g: Group, policy: Policy, events: seq<Event>)
  {
    Distinct(After(start, g, policy, events).s.entries)
  }

  lemma DistinctShrinks(start: State, g: Group, policy: Policy, events: seq<Event>)
    requires events != [] && DistinctThroughout(start, g, policy, events)
    ensures DistinctThroughout(start, g, policy, events[..|events| - 1]) && DistinctAt(start, g, policy, events)
  {
    var before := events[..|events| - 1];
    forall k | 0 <= k <= |before| ensures DistinctAt(start, g, policy, before[..k]) {
      assert before[..k] == events[..k];
      assert DistinctAt(start, g, policy, events[..k]);
    }
    assert events[..|events|] == events;
    assert DistinctAt(start, g, policy, events[..|events|]);
  }

  lemma DistinctGrows(start: State, g: Group, policy: Policy, events: seq<Event>)
    requires events != [] && DistinctThroughout(start, g, policy, events[..|events| - 1])
    requires DistinctAt(start, g, policy, events)
    ensures DistinctThroughout(start, g, policy, events)
  {
    var before := events[..|events| - 1];
    forall k | 0 <= k <= |events| ensures DistinctAt(start, g, policy, events[..k]) {
      if k <= |before| {
        assert before[..k] == events[..k];
        assert DistinctAt(start, g, policy, before[..k]);
      } else {
        assert events[..k] == events;
      }
    }
  }

  lemma HarmlessExtends(start: State, g: Group, policy: Policy, events: seq<Event>)
    requires events != []
    ensures HarmlessThroughout(start, g, policy, events) <==>
            HarmlessThroughout(start, g, policy, events[..|events| - 1]) &&
            Harmless(After(start, g, policy, events[..|events| - 1]), g, events[|events| - 1])
  {
    var n := |events| - 1;
    var before := events[..n];
    if HarmlessThroughout(start, g, policy, events) {
      forall k | 0 <= k < n ensures Harmless(After(start, g, policy, before[..k]), g, before[k]) {
        assert before[..k] == events[..k] && before[k] == events[k];
      }
    }
    if HarmlessThroughout(start, g, policy, before) && Harmless(After(start, g, policy, before), g, events[n]) {
      forall k | 0 <= k < |events| ensures Harmless(After(start, g, policy, events[..k]), g, events[k]) {
        if k < n { assert before[..k] == events[..k] && before[k] == events[k]; }
      }
    }
  }

  /** For every history, no address of a host is ever in the cache twice if and only if it was not to begin with and
      every event is harmless at its point. */
  lemma {:induction false} DistinctThroughoutIff(start: State, g: Group, policy: Policy, events: seq<Event>)
    ensures DistinctThroughout(start, g, policy, events) <==>
            Distinct(start.s.entries) && HarmlessThroughout(start, g, policy, events)
    decreases |events|
  {
    if events == [] {
      assert events[..0] == [];
      assert DistinctThroughout(start, g, policy, events) <==> DistinctAt(start, g, policy, events[..0]);
    } else {
      var before := events[..|events| - 1];
      DistinctThroughoutIff(start, g, policy, before);
      HarmlessExtends(start, g, policy, events);
      if DistinctThroughout(start, g, policy, events) { DistinctShrinks(start, g, policy, events); }
      if DistinctThroughout(start, g, policy, before) {
        assert before[..|before|] == before;
        assert DistinctAt(start, g, policy, before[..|before|]);
        StepDistinctIff(After(start, g, policy, before), g, policy, events[|events| - 1]);
        if DistinctAt(start, g, policy, events) { DistinctGrows(start, g, policy, events); }
      }
    }
  }

  lemma {:induction false} DistinctCount(es: seq<Entry>, h: string, a: Address)
    requires Distinct(es)
    ensures CountAt(es, h, a) <= 1
  {
    if es != [] {
      assert forall i :: 0 <= i < |es[1..]| ==> es[1..][i] == es[i + 1];
      DistinctCount(es[1..], h, a);
      if KeyAt(es[0], h, a) {
        forall i | 0 <= i < |es[1..]| ensures !KeyAt(es[1..][i], h, a) {
          assert !KeyAt(es[0], es[i + 1].host, es[i + 1].addr);
        }
        NotIn(es[1..], h, a);
      }
    }
  }

  lemma {:induction false} NotIn(es: seq<Entry>, h: string, a: Address)
    requires forall i :: 0 <= i < |es| ==> !KeyAt(es[i], h, a)
    ensures CountAt(es, h, a) == 0
  {
    if es != [] { NotIn(es[1..], h, a); }
  }

  /** Then purges find at most one entry, which is what a reader's view rests on. */
  lemma HarmlessPurges(start: State, g: Group, policy: Policy, events: seq<Event>, h: string, a: Address)
    requires Distinct(start.s.entries) && HarmlessThroughout(start, g, policy, events)
    ensures PurgesFindOne(start, g, policy, events, h, a)
  {
    DistinctThroughoutIff(start, g, policy, events);
    forall k | 0 <= k < |events| && PurgesOf(events[k], h, a)
      ensures CountAt(After(start, g, policy, events[..k]).s.entries, h, a) <= 1
    {
      assert DistinctAt(start, g, policy, events[..k]);
      DistinctCount(After(start, g, policy, events[..k]).s.entries, h, a);
    }
  }

  // ----- placeholders last -----

  /** The entry may stand behind the others: its host has neither its address nor a placeholder of its family. */
  predicate FitsBehind(es: seq<Entry>, e: Entry)
  {
    forall i :: 0 <= i < |es| && es[i].host == e.host && SameFamily(es[i].addr, e.addr) ==>
      es[i].addr != e.addr && !Placeholder(es[i].addr)
  }

  lemma InsertKeepsKeysIff(es: seq<Entry>, e: Entry)
    requires WellKeyed(es)
    ensures WellKeyed(es + [e]) <==> FitsBehind(es, e)
  {
    var r := es + [e];
    if WellKeyed(r) {
      forall i | 0 <= i < |es| && es[i].host == e.host && SameFamily(es[i].addr, e.addr)
        ensures es[i].addr != e.addr && !Placeholder(es[i].addr)
      {
        assert r[i] == es[i] && r[|es|] == e;
      }
    }
  }

  lemma SameKeysWellKeyed(a: seq<Entry>, b: seq<Entry>)
    requires |a| == |b| && forall i :: 0 <= i < |a| ==> KeyAt(a[i], b[i].host, b[i].addr)
    ensures WellKeyed(a) <==> WellKeyed(b)
    ensures forall e :: FitsBehind(a, e) <==> FitsBehind(b, e)
  {
  }

  /** A share keeps the order of keys exactly when it inserts nothing, or once where it fits. */
  lemma ShareKeepsKeysIff(es: seq<Entry>, e: Entry, addr: Address, n: nat)
    requires WellKeyed(es)
    ensures WellKeyed(ShareInto(es, e, addr, n)) <==> n == 0 || (n == 1 && FitsBehind(es, e))
  {
    var f, r := Refreshed(es, e, addr), ShareInto(es, e, addr, n);
    SameKeysWellKeyed(es, f);
    if n == 0 {
      assert r == f;
    } else if n == 1 {
      assert r == f + [e];
      InsertKeepsKeysIff(f, e);
    } else {
      assert r[|es|] == e && r[|es| + 1] == e;
    }
  }

  /** Where placeholders come last no update takes one over in front of its own address. */
  lemma PlaceholdersLast(es: seq<Entry>, u: Update)
    requires WellKeyed(es)
    ensures Distinct(es) && !TakesOver(es, u)
  {
  }

  /** Cached and stored results are in that order. */
  predicate KeysUnique(s: GroupState)
  {
    WellKeyed(s.entries) && (s.stored.Some? ==> WellKeyed(FromRecords(s.stored.value)))
  }

  /** What an event must meet at its point to keep it: commits, reads, purges and flushes need nothing unless something
      got between a scan and its insertion. */
  predicate Orderly(t: State, e: Event)
  {
    match e
    case InsertSection(now) =>
      t.pass.Scanned? && !t.pass.scan.found ==> FitsBehind(t.s.entries, NewEntry(t.pass.u, now))
    case Shared(f, _, n) => n == 0 || (n == 1 && FitsBehind(t.s.entries, f))
    case Replaced(fs, _) => WellKeyed(fs)
    case _ => true
  }

  lemma WithoutWellKeyed(es: seq<Entry>, k: nat)
    requires WellKeyed(es) && k < |es|
    ensures WellKeyed(Without(es, k))
  {
    var r := Without(es, k);
    forall i, j | 0 <= i < j < |r| && r[i].host == r[j].host && SameFamily(r[i].addr, r[j].addr)
      ensures r[i].addr != r[j].addr && !Placeholder(r[i].addr)
    {
      var x, y := if i < k then i else i + 1, if j < k then j else j + 1;
      assert r[i] == es[x] && r[j] == es[y];
    }
  }

  lemma WrittenUnique(es: seq<Entry>)
    requires WellKeyed(es)
    ensures WellKeyed(FromRecords(Records(es)))
  {
    SameKeysWellKeyed(es, FromRecords(Records(es)));
  }

  lemma StepKeepsKeysIff(t: State, g: Group, policy: Policy, e: Event)
    requires KeysUnique(t.s)
    ensures KeysUnique(Step(t, g, policy, e).s) <==> Orderly(t, e)
  {
    var es := t.s.entries;
    WrittenUnique(es);
    match e {
      case ScanSection(u, valid, now) => PutKeepsKeys(es, u, now);
      case InsertSection(now) => if t.pass.Scanned? { InsertKeepsKeysIff(es, NewEntry(t.pass.u, now)); }
      case CleanSection(now) => SameKeysWellKeyed(es, Cleaned(es, now));
      case Shared(f, addr, n) => ShareKeepsKeysIff(es, f, addr, n);
      case Purged(h, a, ok) =>
        var k := FirstAt(es, h, a);
        if k < |es| {
          WithoutWellKeyed(es, k);
          WrittenUnique(Without(es, k));
        }
      case Replaced(fs, ok) => if WellKeyed(fs) { WrittenUnique(fs); }
      case _ =>
    }
  }

  predicate OrderlyThroughout(start: State, g: Group, policy: Policy, events: seq<Event>)
  {
    forall k :: 0 <= k < |events| ==> Orderly(After(start, g, policy, events[..k]), events[k])
  }

  /** In every history whose shares, insertions and replacements fit at their points, no address of a host is in the
      cache or the stored copy twice, every event is harmless, and purges find at most one entry. */
  lemma {:induction false} OneEntryPerAddress(start: State, g: Group, policy: Policy, events: seq<Event>)
    requires KeysUnique(start.s) && OrderlyThroughout(start, g, policy, events)
    ensures KeysUnique(After(start, g, policy, events).s)
    ensures HarmlessThroughout(start, g, policy, events)
    decreases |events|
  {
    if events != [] {
      var before, last := events[..|events| - 1], events[|events| - 1];
      assert OrderlyThroughout(start, g, policy, before) by {
        forall k | 0 <= k < |before| ensures Orderly(After(start, g, policy, before[..k]), before[k]) {
          assert before[..k] == events[..k] && before[k] == events[k];
        }
      }
      OneEntryPerAddress(start, g, policy, before);
      var t := After(start, g, policy, before);
      assert Orderly(t, last);
      StepKeepsKeysIff(t, g, policy, last);
      OrderlyIsHarmless(t, g, last);
      HarmlessExtends(start, g, policy, events);
    }
  }

  lemma OrderlyIsHarmless(t: State, g: Group, e: Event)
    requires KeysUnique(t.s) && Orderly(t, e)
    ensures Harmless(t, g, e)
  {
    match e {
      case ScanSection(u, valid, now) => PlaceholdersLast(t.s.entries, u);
      case InsertSection(now) =>
      case Read => if t.s.stored.Some? { DistinctOfKeyed(FromRecords(t.s.stored.value)); }
      case Shared(f, addr, n) =>
      case Replaced(fs, ok) => DistinctOfKeyed(fs);
      case _ =>
    }
  }

  lemma DistinctOfKeyed(es: seq<Entry>)
    requires WellKeyed(es)
    ensures Distinct(es)
  {
  }

  // ----- what can go wrong -----

  /** The first result of a group of one host is written at once, under every policy. */
  lemma FirstIsWritten(g: Group, policy: Policy, u: Update, now: int)
    requires |g.hosts| <= 1
    ensures Commit(GroupState([], None), g, policy, u, true, now, true) ==
            GroupState([NewEntry(u, now)], Some([Record(u.host, u.addr, u.result)]))
  {
    var e := NewEntry(u, now);
    assert Put([], u, now) == [e];
    assert u.host in HostsOf([e]) by { assert [e][0].host == u.host; }
    assert HostsOf([e]) == {u.host};
    assert Cleaned([e], now) == [e] && Records([e]) == [RecordOf(e)];
  }

  /** The sections of one undisturbed pass. */
  function PassOf(u: Update, now: int, ok: bool): seq<Event>
  {
    [ScanSection(u, true, now), InsertSection(now), WriteSection(now, ok), CleanSection(now)]
  }

  lemma {:induction false} AfterConcat(start: State, g: Group, policy: Policy, a: seq<Event>, b: seq<Event>)
    ensures After(start, g, policy, a + b) == After(After(start, g, policy, a), g, policy, b)
  {
    if b == [] {
      assert a + b == a;
    } else {
      var c, e := b[..|b| - 1], b[|b| - 1];
      AfterConcat(start, g, policy, a, c);
      Regroup(a, b);
      AfterOne(start, g, policy, a + c, e);
    }
  }

  lemma Regroup(a: seq<Event>, b: seq<Event>)
    requires b != []
    ensures a + b == (a + b[..|b| - 1]) + [b[|b| - 1]]
  {
  }

  lemma AfterFour(t: State, g: Group, policy: Policy, a: Event, b: Event, c: Event, d: Event)
    ensures After(t, g, policy, [a, b, c, d]) ==
            Step(Step(Step(Step(t, g, policy, a), g, policy, b), g, policy, c), g, policy, d)
  {
    assert [] + [a] == [a] && [a] + [b] == [a, b] && [a, b] + [c] == [a, b, c] && [a, b, c] + [d] == [a, b, c, d];
    AfterOne(t, g, policy, [], a);
    AfterOne(t, g, policy, [a], b);
    AfterOne(t, g, policy, [a, b], c);
    AfterOne(t, g, policy, [a, b, c], d);
  }

  lemma AfterPass(start: State, g: Group, policy: Policy, events: seq<Event>, u: Update, now: int, ok: bool)
    requires After(start, g, policy, events).pass == Idle
    ensures After(start, g, policy, events + PassOf(u, now, ok)) ==
            State(Commit(After(start, g, policy, events).s, g, policy, u, true, now, ok), Idle)
  {
    var t := After(start, g, policy, events);
    AfterConcat(start, g, policy, events, PassOf(u, now, ok));
    AfterFour(t, g, policy, ScanSection(u, true, now), InsertSection(now), WriteSection(now, ok), CleanSection(now));
    PassIsCommit(t.s, g, policy, u, now, ok);
  }

  /** Under the time-to-live policy a second commit stays in the cache, and a read brings the first back. */
  lemma CachedReadCanLoseAnUpdate(h: string, a: Address, older: Result, newer: Result)
    requires older != newer
    ensures var g := Group([h], 1000, false);
            var empty := State(GroupState([], None), Idle);
            var two := PassOf(Update("g", h, a, older), 0, true) + PassOf(Update("g", h, a, newer), 0, true);
            && Lookup(After(empty, g, OnTtl, two).s.entries, h, a) == Some(newer)
            && Lookup(After(empty, g, OnTtl, two + [Read]).s.entries, h, a) == Some(older)
  {
    var g := Group([h], 1000, false);
    var u, v := Update("g", h, a, older), Update("g", h, a, newer);
    var empty := State(GroupState([], None), Idle);
    var one := PassOf(u, 0, true);
    assert After(empty, g, OnTtl, []) == empty && [] + one == one;
    AfterPass(empty, g, OnTtl, [], u, 0, true);
    FirstIsWritten(g, OnTtl, u, 0);
    AfterPass(empty, g, OnTtl, one, v, 0, true);
    AfterOne(empty, g, OnTtl, one + PassOf(v, 0, true), Read);
    var e := NewEntry(u, 0);
    var after := Put([e], v, 0);
    assert Replaces(v, [e][0]);
    assert after == [Merged(e, v)] && after[..0] == [];
    assert Oldest(after, 0) == 0;
    assert FromRecords([RecordOf(e)]) == [e];
  }

  /** Under every policy a shared result leaves no mark, and a read brings the older one back. */
  lemma CachedReadCanLoseASharedResult(policy: Policy, h: string, a: Address, older: Result, newer: Result)
    requires older != newer
    ensures var g := Group([h], 1000, false);
            var empty := State(GroupState([], None), Idle);
            var events := PassOf(Update("g", h, a, older), 0, true) + [Shared(Entry(h, a, newer, false, 0), a, 0)];
            var s := After(empty, g, policy, events).s;
            && (forall e :: e in s.entries ==> !e.stale)
            && Lookup(s.entries, h, a) == Some(newer)
            && Lookup(After(empty, g, policy, events + [Read]).s.entries, h, a) == Some(older)
  {
    var g := Group([h], 1000, false);
    var u := Update("g", h, a, older);
    var empty := State(GroupState([], None), Idle);
    var one, share := PassOf(u, 0, true), Shared(Entry(h, a, newer, false, 0), a, 0);
    assert After(empty, g, policy, []) == empty && [] + one == one;
    AfterPass(empty, g, policy, [], u, 0, true);
    FirstIsWritten(g, policy, u, 0);
    AfterOne(empty, g, policy, one, share);
    AfterOne(empty, g, policy, one + [share], Read);
    var e := NewEntry(u, 0);
    assert ShareInto([e], Entry(h, a, newer, false, 0), a, 0) == [e.(result := newer)];
    assert FromRecords([RecordOf(e)]) == [e];
  }

  lemma TwoOfAKind(es: seq<Entry>, h: string, a: Address)
    requires |es| == 2 && forall i :: 0 <= i < 2 ==> KeyAt(es[i], h, a)
    ensures CountAt(es, h, a) == 2 && FirstAt(es, h, a) == 0
    ensures Lookup(es, h, a) == Some(es[0].result)
    ensures Lookup(Without(es, 0), h, a) == Some(es[1].result)
  {
    assert KeyAt(es[0], h, a) && KeyAt(es[1], h, a);
    assert es[1..] == [es[1]] && [es[1]][1..] == [];
    assert CountAt([es[1]], h, a) == 1 + CountAt([], h, a);
    assert Without(es, 0) == [es[1]];
  }

  /** A result shared behind a placeholder and then committed is there twice, and purging it leaves the older one. */
  lemma ShareCanDuplicate(g: Group, policy: Policy, h: string, x: nat, hold: Result, old_: Result, new_: Result,
                          now: int)
    requires x != 0
    ensures var a := V4(x);
            var start := State(GroupState([Entry(h, V4(0), hold, false, now)], None), Idle);
            var events := [Shared(Entry(h, a, old_, false, now), a, 1)] +
                          [ScanSection(Update("g", h, a, new_), true, now)];
            && CountAt(After(start, g, policy, events).s.entries, h, a) == 2
            && Lookup(After(start, g, policy, events + [Purged(h, a, false)]).s.entries, h, a) == Some(old_)
  {
    var a := V4(x);
    var p, e := Entry(h, V4(0), hold, false, now), Entry(h, a, old_, false, now);
    var start := State(GroupState([p], None), Idle);
    var u := Update("g", h, a, new_);
    var one, two := Shared(e, a, 1), ScanSection(u, true, now);
    assert After(start, g, policy, []) == start && [] + [one] == [one];
    AfterOne(start, g, policy, [], one);
    AfterOne(start, g, policy, [one], two);
    AfterOne(start, g, policy, [one] + [two], Purged(h, a, false));
    assert ShareInto([p], e, a, 1) == [p, e];
    assert Replaces(u, [p, e][0]) && [p, e][1..] == [e];
    assert Put([p, e], u, now) == [Merged(p, u), e];
    TwoOfAKind([Merged(p, u), e], h, a);
  }

  /** A read between the scan and the insertion of a pass loads an older result in front of the new one: the address is
      there twice and a reader gets the older. */
  lemma ReadInsidePassHidesResult(g: Group, policy: Policy, h: string, a: Address, older: Result, newer: Result,
                                  now: int)
    ensures var start := State(GroupState([], Some([Record(h, a, older)])), Idle);
            var events := [ScanSection(Update("g", h, a, newer), true, now)] + [Read] + [InsertSection(now)];
            var es := After(start, g, policy, events).s.entries;
            CountAt(es, h, a) == 2 && Lookup(es, h, a) == Some(older)
  {
    var start := State(GroupState([], Some([Record(h, a, older)])), Idle);
    var u := Update("g", h, a, newer);
    var one, three := ScanSection(u, true, now), InsertSection(now);
    assert After(start, g, policy, []) == start && [] + [one] == [one];
    AfterOne(start, g, policy, [], one);
    AfterOne(start, g, policy, [one], Read);
    AfterOne(start, g, policy, [one] + [Read], three);
    var e := FromRecord(Record(h, a, older));
    assert FromRecords([Record(h, a, older)]) == [e];
    assert [e] + [NewEntry(u, now)] == [e, NewEntry(u, now)];
    TwoOfAKind([e, NewEntry(u, now)], h, a);
  }
}
