/** Which result a reader of a group's cache gets, over every history. */
module GroupReaders {
  import opened Basics
  import opened GroupStore
  import opened GroupHistory

  lemma SameRecordsTail(a: seq<Entry>, b: seq<Entry>)
    requires Records(a) == Records(b) && a != []
    ensures b != [] && RecordOf(a[0]) == RecordOf(b[0]) && Records(a[1..]) == Records(b[1..])
  {
    assert |a| == |Records(a)| == |Records(b)| == |b|;
    assert RecordOf(a[0]) == Records(a)[0] == Records(b)[0] == RecordOf(b[0]);
    assert Records(a[1..]) == Records(a)[1..] == Records(b)[1..] == Records(b[1..]);
  }

  lemma {:induction false} LookupRecords(a: seq<Entry>, b: seq<Entry>, h: string, addr: Address)
    requires Records(a) == Records(b)
    ensures Lookup(a, h, addr) == Lookup(b, h, addr)
  {
    if a == [] {
      assert |Records(b)| == |b|;
    } else {
      SameRecordsTail(a, b);
      LookupRecords(a[1..], b[1..], h, addr);
    }
  }

  function CountAt(es: seq<Entry>, h: string, a: Address): nat
  {
    if es == [] then 0 else (if es[0].host == h && es[0].addr == a then 1 else 0) + CountAt(es[1..], h, a)
  }

  lemma {:induction false} LookupNone(es: seq<Entry>, h: string, a: Address)
    ensures Lookup(es, h, a) == None <==> CountAt(es, h, a) == 0
  {
    if es != [] { LookupNone(es[1..], h, a); }
  }

  lemma ShareTail(es: seq<Entry>, e: Entry, addr: Address, n: nat)
    requires es != []
    ensures ShareInto(es, e, addr, n)[0] == WithResult(es[0], e, addr)
    ensures ShareInto(es, e, addr, n)[1..] == ShareInto(es[1..], e, addr, n)
  {
  }

  /** A shared result is what a reader finds at its measured address if anything was there, and at its header's address
      if nothing was there and it was inserted. */
  lemma {:induction false} LookupAfterShare(es: seq<Entry>, e: Entry, addr: Address, n: nat, h: string, a: Address)
    ensures Lookup(ShareInto(es, e, addr, n), h, a) == AfterShare(Lookup(es, h, a), e, addr, n, h, a)
  {
    if es == [] {
      assert ShareInto(es, e, addr, n) == Copies(e, n);
      if n > 0 && (h != e.host || a != e.addr) { LookupInCopies(e, n, h, a); }
    } else {
      ShareTail(es, e, addr, n);
      LookupAfterShare(es[1..], e, addr, n, h, a);
    }
  }

  lemma {:induction false} LookupInCopies(e: Entry, n: nat, h: string, a: Address)
    requires h != e.host || a != e.addr
    ensures Lookup(Copies(e, n), h, a) == None
  {
    if n > 0 {
      assert Copies(e, n)[1..] == Copies(e, n - 1);
      LookupInCopies(e, n - 1, h, a);
    }
  }

  function AfterShare(before: Option<Result>, e: Entry, addr: Address, n: nat, h: string, a: Address): Option<Result>
  {
    if h == e.host && a == addr && before.Some? then Some(e.result)
    else if h == e.host && a == e.addr && before.None? && n > 0 then Some(e.result)
    else before
  }

  lemma WithoutTail(es: seq<Entry>, k: nat)
    requires 0 < k < |es|
    ensures Without(es, k)[0] == es[0] && Without(es, k)[1..] == Without(es[1..], k - 1)
  {
    assert es[1..][..k - 1] == es[..k][1..] && es[1..][k..] == es[k + 1..];
  }

  /** A purge that finds an entry leaves no reading of its own address exactly when that occurred once, and changes no
      other. */
  lemma {:induction false} LookupAfterPurge(es: seq<Entry>, h: string, a: Address, k: string, b: Address)
    requires FirstAt(es, h, a) < |es|
    ensures (k != h || b != a) ==> Lookup(Without(es, FirstAt(es, h, a)), k, b) == Lookup(es, k, b)
    ensures Lookup(Without(es, FirstAt(es, h, a)), h, a) == None <==> CountAt(es, h, a) <= 1
  {
    if es[0].host == h && es[0].addr == a {
      assert Without(es, FirstAt(es, h, a)) == es[1..];
      LookupNone(es[1..], h, a);
    } else {
      LookupAfterPurge(es[1..], h, a, k, b);
      WithoutTail(es, FirstAt(es, h, a));
    }
  }

  lemma {:induction false} LookupAbsent(es: seq<Entry>, h: string, a: Address)
    requires FirstAt(es, h, a) == |es|
    ensures Lookup(es, h, a) == None
  {
    if es != [] { LookupAbsent(es[1..], h, a); }
  }

  lemma {:induction false} LookupAfterInsert(es: seq<Entry>, e: Entry, h: string, a: Address)
    ensures Lookup(es + [e], h, a) ==
            if Lookup(es, h, a).None? && e.host == h && e.addr == a then Some(e.result) else Lookup(es, h, a)
  {
    if es == [] {
      assert es + [e] == [e] && [e][1..] == [];
    } else {
      LookupAfterInsert(es[1..], e, h, a);
      assert (es + [e])[1..] == es[1..] + [e];
    }
  }

  predicate IsFor(u: Update, h: string, a: Address) { u.host == h && u.addr == a }

  /** What a reader of a host and address should find after an event, given what it found before.  A committed result
      shows at the scan if its address or a placeholder was there, and otherwise at the insertion if by then still
      nothing is there. */
  function SeenAfter(before: Option<Result>, t: State, g: Group, e: Event, h: string, a: Address): Option<Result>
  {
    match e
    case ScanSection(u, valid, _) =>
      if t.pass == Idle && (valid || !g.dnsFlow) && AnyReplaced(t.s.entries, u) && IsFor(u, h, a)
      then Some(u.result) else before
    case InsertSection(_) =>
      if t.pass.Scanned? && !t.pass.scan.found && IsFor(t.pass.u, h, a) && before.None?
      then Some(t.pass.u.result) else before
    case WriteSection(_, _) => before
    case CleanSection(_) => before
    case Read => if t.s.stored.Some? then Lookup(FromRecords(t.s.stored.value), h, a) else before
    case Shared(f, addr, n) => AfterShare(before, f, addr, n, h, a)
    case Purged(k, b, _) => if k == h && b == a then None else before
    case Replaced(es, _) => Lookup(es, h, a)
    case Flushed(_) => before
  }

  /** What a reader should find after a history: the newest result committed, shared or put in place since the last
      read of a stored group, or otherwise what was stored at that read. */
  function Seen(start: State, g: Group, policy: Policy, events: seq<Event>, h: string, a: Address): Option<Result>
  {
    if events == [] then Lookup(start.s.entries, h, a)
    else
      var before := events[..|events| - 1];
      SeenAfter(Seen(start, g, policy, before, h, a), After(start, g, policy, before), g, events[|events| - 1], h, a)
  }

  predicate PurgesOf(e: Event, h: string, a: Address) { e.Purged? && e.host == h && e.addr == a }

  /** Every purge of this address finds at most one entry of it. */
  predicate PurgesFindOne(start: State, g: Group, policy: Policy, events: seq<Event>, h: string, a: Address)
  {
    forall k :: 0 <= k < |events| && PurgesOf(events[k], h, a) ==>
      CountAt(After(start, g, policy, events[..k]).s.entries, h, a) <= 1
  }

  lemma PrefixPurges(start: State, g: Group, policy: Policy, events: seq<Event>, h: string, a: Address)
    requires events != [] && PurgesFindOne(start, g, policy, events, h, a)
    ensures PurgesFindOne(start, g, policy, events[..|events| - 1], h, a)
    ensures PurgesOf(events[|events| - 1], h, a) ==>
              CountAt(After(start, g, policy, events[..|events| - 1]).s.entries, h, a) <= 1
  {
    var before := events[..|events| - 1];
    forall k | 0 <= k < |before| && PurgesOf(before[k], h, a)
      ensures CountAt(After(start, g, policy, before[..k]).s.entries, h, a) <= 1
    {
      assert PurgesOf(events[k], h, a) && before[..k] == events[..k];
    }
  }

  lemma StepSeen(t: State, g: Group, policy: Policy, e: Event, h: string, a: Address)
    requires !Placeholder(a) && (PurgesOf(e, h, a) ==> CountAt(t.s.entries, h, a) <= 1)
    ensures Lookup(Step(t, g, policy, e).s.entries, h, a) == SeenAfter(Lookup(t.s.entries, h, a), t, g, e, h, a)
  {
    var es := t.s.entries;
    match e {
      case ScanSection(u, valid, now) => LookupAfterPut(es, u, now, h, a);
      case InsertSection(now) => if t.pass.Scanned? { LookupAfterInsert(es, NewEntry(t.pass.u, now), h, a); }
      case CleanSection(now) => LookupRecords(Cleaned(es, now), es, h, a);
      case Shared(f, addr, n) => LookupAfterShare(es, f, addr, n, h, a);
      case Purged(k, b, ok) =>
        if FirstAt(es, k, b) < |es| { LookupAfterPurge(es, k, b, h, a); } else { LookupAbsent(es, k, b); }
      case _ =>
    }
  }

  /** For every history, every interleaving with the sections of a pass, every policy and outcome of writes, a reader
      finds for each resolved address exactly what it should, provided purges of it found no duplicates. */
  lemma {:induction false} ReaderSeesLatest(start: State, g: Group, policy: Policy, events: seq<Event>, h: string,
                                            a: Address)
    requires !Placeholder(a) && PurgesFindOne(start, g, policy, events, h, a)
    ensures Lookup(After(start, g, policy, events).s.entries, h, a) == Seen(start, g, policy, events, h, a)
  {
    if events != [] {
      var before := events[..|events| - 1];
      PrefixPurges(start, g, policy, events, h, a);
      ReaderSeesLatest(start, g, policy, before, h, a);
      StepSeen(After(start, g, policy, before), g, policy, events[|events| - 1], h, a);
    }
  }

  /** The same with every read ignored. */
  function SeenWithoutReads(start: State, g: Group, policy: Policy, events: seq<Event>, h: string,
                            a: Address): Option<Result>
  {
    if events == [] then Lookup(start.s.entries, h, a)
    else
      var before, e := events[..|events| - 1], events[|events| - 1];
      var seen := SeenWithoutReads(start, g, policy, before, h, a);
      if e.Read? then seen else SeenAfter(seen, After(start, g, policy, before), g, e, h, a)
  }

  /** A read through the cache would change nothing: the group is not stored, or is stored as it is cached. */
  predicate Saved(s: GroupState) { s.stored.None? || s.stored.value == Records(s.entries) }

  predicate ReadsFindSaved(start: State, g: Group, policy: Policy, events: seq<Event>)
  {
    forall k :: 0 <= k < |events| && events[k].Read? ==> Saved(After(start, g, policy, events[..k]).s)
  }

  /** If moreover every read finds the group saved, nobody can tell that it was read. */
  lemma {:induction false} SavedReadsAreInvisible(start: State, g: Group, policy: Policy, events: seq<Event>,
                                                  h: string, a: Address)
    requires !Placeholder(a) && PurgesFindOne(start, g, policy, events, h, a)
    requires ReadsFindSaved(start, g, policy, events)
    ensures Lookup(After(start, g, policy, events).s.entries, h, a) == SeenWithoutReads(start, g, policy, events, h, a)
  {
    if events != [] {
      var before, e := events[..|events| - 1], events[|events| - 1];
      PrefixPurges(start, g, policy, events, h, a);
      forall k | 0 <= k < |before| && before[k].Read? ensures Saved(After(start, g, policy, before[..k]).s) {
        assert events[k].Read? && before[..k] == events[..k];
      }
      SavedReadsAreInvisible(start, g, policy, before, h, a);
      var t := After(start, g, policy, before);
      StepSeen(t, g, policy, e, h, a);
      if e.Read? {
        assert Saved(t.s);
        if t.s.stored.Some? { LookupRecords(FromRecords(t.s.stored.value), t.s.entries, h, a); }
      }
    }
  }

  /** A pass with nothing between its scan and its insertion shows its result, and changes no other reading. */
  lemma PassShowsResult(s: GroupState, g: Group, policy: Policy, u: Update, now: int, h: string, a: Address)
    requires !Placeholder(a)
    ensures var t := Step(Step(State(s, Idle), g, policy, ScanSection(u, true, now)), g, policy, InsertSection(now));
            Lookup(t.s.entries, h, a) == if IsFor(u, h, a) then Some(u.result) else Lookup(s.entries, h, a)
  {
    ScanThenInsert(s, g, policy, u, now);
    LookupAfterPut(s.entries, u, now, h, a);
  }
}
