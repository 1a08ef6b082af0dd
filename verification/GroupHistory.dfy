/**
 What the cached results of a group and their stored copy have to do with each other, over every history.

 A pass of the commit thread is four critical sections: it scans the group and merges the update if it can,
 inserts it otherwise, writes the group out if the policy says so, and then marks the entries clean.  Reads,
 shared results, purges, replacements and flushes by other threads may come between any two of them.
 */
module GroupHistory {
  import opened Basics
  import opened GroupStore

  // ----- histories -----

  /** What the scan gathered. */
  datatype Scan = Scan(found: bool, allStale: bool, oldest: int, hosts: set<string>)

  /** Where the commit thread is with this group. */
  datatype Pass =
    | Idle
    | Scanned(u: Update, scan: Scan)
    | Inserted(u: Update, scan: Scan)
    | WroteOut

  datatype State = State(s: GroupState, pass: Pass)

  datatype Event =
    | ScanSection(u: Update, valid: bool, now: int)
    | InsertSection(now: int)
    | WriteSection(now: int, storeOk: bool)
    | CleanSection(now: int)
    | Read
    | Shared(e: Entry, addr: Address, n: nat)
    | Purged(host: string, addr: Address, storeOk: bool)
    | Replaced(entries: seq<Entry>, storeOk: bool)
    | Flushed(storeOk: bool)

  function NewEntry(u: Update, now: int): Entry { Entry(u.host, u.addr, u.result, false, now) }

  /** The entries as the scan leaves them. */
  function MergedIn(es: seq<Entry>, u: Update, now: int): seq<Entry>
  {
    if AnyReplaced(es, u) then Put(es, u, now) else es
  }

  function ScanOf(es: seq<Entry>, u: Update, now: int): Scan
  {
    var after := MergedIn(es, u, now);
    var found := AnyReplaced(es, u);
    Scan(found, AllStale(after), Oldest(after, now), HostsOf(after) + if found then {} else {u.host})
  }

  /** The entries with the update inserted, if the scan did not find where to merge it. */
  function WithInserted(es: seq<Entry>, u: Update, scan: Scan, now: int): seq<Entry>
  {
    if scan.found then es else es + [NewEntry(u, now)]
  }

  /** Does the pass write the group out?  It looks at what the scan gathered, not at the group. */
  predicate Decides(p: Pass, g: Group, policy: Policy, now: int)
    requires p.Inserted?
  {
    |p.scan.hosts| >= |g.hosts| && PolicySays(policy, g, p.u, !p.scan.found, p.scan.allStale, p.scan.oldest, now)
  }

  /** One event.  A section of the pass that is not its next one does nothing. */
  function Step(t: State, g: Group, policy: Policy, e: Event): State
  {
    var es := t.s.entries;
    match e
    case ScanSection(u, valid, now) =>
      if t.pass != Idle || (!valid && g.dnsFlow) then t
      else State(t.s.(entries := MergedIn(es, u, now)), Scanned(u, ScanOf(es, u, now)))
    case InsertSection(now) =>
      if !t.pass.Scanned? then t
      else State(t.s.(entries := WithInserted(es, t.pass.u, t.pass.scan, now)), Inserted(t.pass.u, t.pass.scan))
    case WriteSection(now, ok) =>
      if !t.pass.Inserted? then t
      else if Decides(t.pass, g, policy, now) then State(Written(t.s, es, ok), WroteOut)
      else t.(pass := Idle)
    case CleanSection(now) =>
      if t.pass != WroteOut then t else State(t.s.(entries := Cleaned(es, now)), Idle)
    case Read => t.(s := CachedRead(t.s))
    case Shared(f, addr, n) => t.(s := t.s.(entries := ShareInto(es, f, addr, n)))
    case Purged(h, a, ok) => t.(s := Purge(t.s, h, a, ok))
    case Replaced(fs, ok) => t.(s := Written(t.s, fs, ok))
    case Flushed(ok) => t.(s := Flush(t.s, ok))
  }

  function After(start: State, g: Group, policy: Policy, events: seq<Event>): State
  {
    if events == [] then start
    else Step(After(start, g, policy, events[..|events| - 1]), g, policy, events[|events| - 1])
  }

  lemma AfterOne(start: State, g: Group, policy: Policy, events: seq<Event>, e: Event)
    ensures After(start, g, policy, events + [e]) == Step(After(start, g, policy, events), g, policy, e)
  {
    assert (events + [e])[..|events|] == events;
  }

  lemma HostsGrow(es: seq<Entry>, e: Entry)
    ensures HostsOf(es + [e]) == HostsOf(es) + {e.host}
  {
    var more := es + [e];
    forall h ensures h in HostsOf(more) <==> h in HostsOf(es) + {e.host} {
      if h in HostsOf(es) { var k :| 0 <= k < |es| && es[k].host == h; assert more[k].host == h; }
      if h == e.host { assert more[|es|].host == h; }
    }
  }

  lemma MergedThenInserted(es: seq<Entry>, u: Update, now: int)
    ensures var scan, after := ScanOf(es, u, now), Put(es, u, now);
            && WithInserted(MergedIn(es, u, now), u, scan, now) == after
            && scan.found == AnyReplaced(es, u) && scan.hosts == HostsOf(after)
            && (scan.found ==> scan.allStale == AllStale(after) && scan.oldest == Oldest(after, now))
  {
    if !AnyReplaced(es, u) {
      PutAppended(es, u, now);
      HostsGrow(es, NewEntry(u, now));
    }
  }

  /** What the last two sections make of a group. */
  function WrittenIfDue(s: GroupState, g: Group, policy: Policy, u: Update, scan: Scan, now: int, ok: bool): GroupState
  {
    if |scan.hosts| >= |g.hosts| && PolicySays(policy, g, u, !scan.found, scan.allStale, scan.oldest, now)
    then GroupState(Cleaned(s.entries, now), if ok then Some(Records(s.entries)) else s.stored)
    else s
  }

  /** A commit as its sections compute it. */
  lemma CommitByScan(s: GroupState, g: Group, policy: Policy, u: Update, now: int, ok: bool)
    ensures var scan := ScanOf(s.entries, u, now);
            var after := WithInserted(MergedIn(s.entries, u, now), u, scan, now);
            Commit(s, g, policy, u, true, now, ok) == WrittenIfDue(s.(entries := after), g, policy, u, scan, now, ok)
  {
    MergedThenInserted(s.entries, u, now);
  }

  /** With nothing in between, the scan and the insertion merge the update, and what was gathered is right. */
  lemma ScanThenInsert(s: GroupState, g: Group, policy: Policy, u: Update, now: int)
    ensures var t := Step(Step(State(s, Idle), g, policy, ScanSection(u, true, now)), g, policy, InsertSection(now));
            && t.s == s.(entries := Put(s.entries, u, now)) && t.pass.Inserted? && t.pass.u == u
            && t.pass.scan.found == AnyReplaced(s.entries, u) && t.pass.scan.hosts == HostsOf(t.s.entries)
            && (t.pass.scan.found ==>
                  t.pass.scan.allStale == AllStale(t.s.entries) && t.pass.scan.oldest == Oldest(t.s.entries, now))
  {
    MergedThenInserted(s.entries, u, now);
  }

  /** So an undisturbed pass is the commit of its update. */
  lemma PassIsCommit(s: GroupState, g: Group, policy: Policy, u: Update, now: int, ok: bool)
    ensures var a := Step(State(s, Idle), g, policy, ScanSection(u, true, now));
            var b := Step(a, g, policy, InsertSection(now));
            var c := Step(b, g, policy, WriteSection(now, ok));
            Step(c, g, policy, CleanSection(now)) == State(Commit(s, g, policy, u, true, now, ok), Idle)
  {
    ScanThenInsert(s, g, policy, u, now);
  }

  /** In the DNS flow an update of an address the DNS cache no longer knows leaves no trace in any history: neither the
      cache nor the backend is touched, then or later.  In the other flow the verdict makes no difference. */
  lemma {:induction false} InvalidUpdateLeavesNoTrace(start: State, g: Group, policy: Policy, before: seq<Event>,
                                                      u: Update, now: int, after: seq<Event>)
    ensures After(start, g, policy, before + [ScanSection(u, false, now)] + after) ==
            After(start, g, policy, if g.dnsFlow then before + after
                                    else before + [ScanSection(u, true, now)] + after)
    decreases |after|
  {
    var e, f := ScanSection(u, false, now), ScanSection(u, true, now);
    if after == [] {
      assert before + [e] + after == before + [e];
      assert before + [f] + after == before + [f];
      assert before + after == before;
      AfterOne(start, g, policy, before, e);
      AfterOne(start, g, policy, before, f);
    } else {
      var init, last := after[..|after| - 1], after[|after| - 1];
      InvalidUpdateLeavesNoTrace(start, g, policy, before, u, now, init);
      assert after == init + [last];
      Regroup(before + [e], init, last);
      Regroup(before + [f], init, last);
      Regroup(before, init, last);
      AfterOne(start, g, policy, before + [e] + init, last);
      AfterOne(start, g, policy, before + [f] + init, last);
      AfterOne(start, g, policy, before + init, last);
    }
  }

  lemma Regroup(a: seq<Event>, b: seq<Event>, e: Event)
    ensures a + (b + [e]) == a + b + [e]
  {
  }

  /** The commit of such an update is nothing at all. */
  lemma InvalidUpdateChangesNothing(s: GroupState, g: Group, policy: Policy, u: Update, now: int, ok: bool)
    ensures Commit(s, g, policy, u, false, now, ok) == if g.dnsFlow then s else Commit(s, g, policy, u, true, now, ok)
  {
  }

  // ----- which entries have not been written -----

  /**
   A group together with a record of its past.  An entry is unwritten if, since the group was last written or read
   back, it was changed by a shared result or inserted, or a write of it failed.  The group is disturbed if in that
   time a result was shared with it, a write failed, or an update was inserted by a pass whose scan no longer knew
   the group's hosts.
   */
  datatype Track = Track(t: State, unwritten: seq<bool>, disturbed: bool)

  function Flags(n: nat, b: bool): (r: seq<bool>)
    ensures |r| == n && forall i :: 0 <= i < n ==> r[i] == b
  {
    seq(n, _ => b)
  }

  /** After an attempt to write the group, or after reading it back. */
  function Settled(t: State, ok: bool): Track { Track(t, Flags(|t.s.entries|, !ok), !ok) }

  function TouchedBy(k: Track, e: Entry, addr: Address, n: nat): (r: seq<bool>)
    requires |k.unwritten| == |k.t.s.entries|
    ensures |r| == |k.t.s.entries| + n
    ensures forall i :: 0 <= i < |r| ==>
              r[i] == (i >= |k.t.s.entries| || k.unwritten[i] || KeyedAt(k.t.s.entries[i], e, addr))
  {
    seq(|k.t.s.entries| + n, i requires 0 <= i < |k.t.s.entries| + n =>
      i >= |k.t.s.entries| || k.unwritten[i] || KeyedAt(k.t.s.entries[i], e, addr))
  }

  function TrackStep(k: Track, g: Group, policy: Policy, e: Event): Track
    requires |k.unwritten| == |k.t.s.entries|
  {
    var t := Step(k.t, g, policy, e);
    match e
    case ScanSection(_, _, _) => k.(t := t)
    case InsertSection(_) =>
      if k.t.pass.Scanned? && !k.t.pass.scan.found
      then Track(t, k.unwritten + [true], k.disturbed || k.t.pass.scan.hosts != HostsOf(t.s.entries))
      else k.(t := t)
    case WriteSection(_, ok) => if t.pass == WroteOut && k.t.pass.Inserted? then Settled(t, ok) else k.(t := t)
    case CleanSection(_) => k.(t := t)
    case Read => if k.t.s.stored.None? then k else Settled(t, true)
    case Shared(f, addr, n) =>
      Track(t, TouchedBy(k, f, addr, n), k.disturbed || Holds(k.t.s.entries, f, addr) || n > 0)
    case Purged(h, a, ok) => if FirstAt(k.t.s.entries, h, a) == |k.t.s.entries| then k else Settled(t, ok)
    case Replaced(_, ok) => Settled(t, ok)
    case Flushed(ok) => if ok then Settled(t, true) else k
  }

  lemma TrackStepShape(k: Track, g: Group, policy: Policy, e: Event)
    requires |k.unwritten| == |k.t.s.entries|
    ensures var r := TrackStep(k, g, policy, e);
            r.t == Step(k.t, g, policy, e) && |r.unwritten| == |r.t.s.entries|
  {
    if e.ScanSection? && AnyReplaced(k.t.s.entries, e.u) { PutReplaced(k.t.s.entries, e.u, e.now); }
  }

  /** The record of a history.  Of results that were cached before it began nothing is known. */
  function Tracked(start: GroupState, g: Group, policy: Policy, events: seq<Event>): (k: Track)
    ensures k.t == After(State(start, Idle), g, policy, events) && |k.unwritten| == |k.t.s.entries|
  {
    if events == [] then Track(State(start, Idle), Flags(|start.entries|, true), start.entries != [])
    else
      var k := Tracked(start, g, policy, events[..|events| - 1]);
      TrackStepShape(k, g, policy, events[|events| - 1]);
      TrackStep(k, g, policy, events[|events| - 1])
  }

  // ----- the stored copy -----

  predicate Agrees(s: GroupState, i: nat)
    requires i < |s.entries|
  {
    s.stored.Some? && i < |s.stored.value| && s.stored.value[i] == RecordOf(s.entries[i])
  }

  predicate StoredAt(s: GroupState, i: nat)
    requires i < |s.entries|
  {
    && s.stored.Some? && i < |s.stored.value| && s.stored.value[i].host == s.entries[i].host
    && (s.entries[i].stale || s.stored.value[i] == RecordOf(s.entries[i]))
  }

  /** Every entry that is not unwritten is in the stored copy, at its place, with its result unless it is marked
      stale; between a write and the clean marks, with its result in any case. */
  predicate Mirrors(k: Track)
  {
    && |k.unwritten| == |k.t.s.entries|
    && (forall i :: 0 <= i < |k.t.s.entries| ==> k.unwritten[i] || StoredAt(k.t.s, i))
    && (k.t.pass == WroteOut ==> forall i :: 0 <= i < |k.t.s.entries| ==> k.unwritten[i] || Agrees(k.t.s, i))
  }

  lemma SettledMirrors(t: State, ok: bool)
    requires ok ==> t.s.entries == [] || t.s.stored == Some(Records(t.s.entries))
    ensures Mirrors(Settled(t, ok))
  {
  }

  lemma ScanMirrors(k: Track, g: Group, policy: Policy, u: Update, valid: bool, now: int)
    requires Mirrors(k)
    ensures Mirrors(TrackStep(k, g, policy, ScanSection(u, valid, now)))
  {
    var r := TrackStep(k, g, policy, ScanSection(u, valid, now));
    if AnyReplaced(k.t.s.entries, u) {
      PutReplaced(k.t.s.entries, u, now);
      forall i | 0 <= i < |r.t.s.entries| ensures r.unwritten[i] || StoredAt(r.t.s, i) {
        assert k.unwritten[i] || StoredAt(k.t.s, i);
      }
    }
  }

  lemma InsertMirrors(k: Track, g: Group, policy: Policy, now: int)
    requires Mirrors(k)
    ensures Mirrors(TrackStep(k, g, policy, InsertSection(now)))
  {
    var r := TrackStep(k, g, policy, InsertSection(now));
    forall i | 0 <= i < |k.t.s.entries| ensures r.unwritten[i] || StoredAt(r.t.s, i) {
      assert k.unwritten[i] || StoredAt(k.t.s, i);
    }
  }

  lemma CleanMirrors(k: Track, g: Group, policy: Policy, now: int)
    requires Mirrors(k)
    ensures Mirrors(TrackStep(k, g, policy, CleanSection(now)))
  {
    var r := TrackStep(k, g, policy, CleanSection(now));
    if k.t.pass == WroteOut {
      forall i | 0 <= i < |r.t.s.entries| ensures r.unwritten[i] || StoredAt(r.t.s, i) {
        assert k.unwritten[i] || Agrees(k.t.s, i);
      }
    }
  }

  lemma ShareMirrors(k: Track, g: Group, policy: Policy, e: Entry, addr: Address, n: nat)
    requires Mirrors(k)
    ensures Mirrors(TrackStep(k, g, policy, Shared(e, addr, n)))
  {
    var r := TrackStep(k, g, policy, Shared(e, addr, n));
    forall i | 0 <= i < |r.t.s.entries|
      ensures r.unwritten[i] || StoredAt(r.t.s, i)
      ensures k.t.pass == WroteOut ==> r.unwritten[i] || Agrees(r.t.s, i)
    {
      if i < |k.t.s.entries| { assert k.unwritten[i] || StoredAt(k.t.s, i); }
    }
  }

  lemma StepMirrors(k: Track, g: Group, policy: Policy, e: Event)
    requires Mirrors(k)
    ensures Mirrors(TrackStep(k, g, policy, e))
  {
    var t := Step(k.t, g, policy, e);
    match e {
      case ScanSection(u, valid, now) => ScanMirrors(k, g, policy, u, valid, now);
      case InsertSection(now) => InsertMirrors(k, g, policy, now);
      case WriteSection(now, ok) => if t.pass == WroteOut && k.t.pass.Inserted? { SettledMirrors(t, ok); }
      case CleanSection(now) => CleanMirrors(k, g, policy, now);
      case Shared(f, addr, n) => ShareMirrors(k, g, policy, f, addr, n);
      case Read => if k.t.s.stored.Some? { SettledMirrors(t, true); }
      case Purged(h, a, ok) => if FirstAt(k.t.s.entries, h, a) < |k.t.s.entries| { SettledMirrors(t, ok); }
      case Replaced(es, ok) => SettledMirrors(t, ok);
      case Flushed(ok) => if ok { SettledMirrors(t, true); }
    }
  }

  /** For every history, policy and outcome of writes, and whatever was cached and stored to begin with, the stored
      copy of a group differs from its cached results only at entries that are marked stale or unwritten. */
  lemma {:induction false} BackendMirrorsCache(start: GroupState, g: Group, policy: Policy, events: seq<Event>)
    ensures Mirrors(Tracked(start, g, policy, events))
  {
    if events != [] {
      var before := events[..|events| - 1];
      BackendMirrorsCache(start, g, policy, before);
      StepMirrors(Tracked(start, g, policy, before), g, policy, events[|events| - 1]);
    }
  }

  // ----- complete groups -----

  predicate AllWritten(k: Track)
  {
    && (forall i :: 0 <= i < |k.unwritten| ==> !k.unwritten[i])
    && k.t.s.stored.Some? && |k.t.s.stored.value| == |k.t.s.entries|
  }

  /** A pass that has inserted an update into a complete group and is bound to write it. */
  predicate AboutToWrite(p: Pass, g: Group)
  {
    p.Inserted? && !p.scan.found && |p.scan.hosts| >= |g.hosts|
  }

  /** A complete group that was not disturbed is stored entry by entry, or is about to be. */
  predicate WrittenOnceComplete(k: Track, g: Group)
  {
    || k.disturbed || k.t.s.entries == [] || !Complete(k.t.s.entries, g)
    || AllWritten(k) || AboutToWrite(k.t.pass, g)
  }

  lemma ScanWritesComplete(k: Track, g: Group, policy: Policy, u: Update, valid: bool, now: int)
    requires |k.unwritten| == |k.t.s.entries| && WrittenOnceComplete(k, g)
    ensures WrittenOnceComplete(TrackStep(k, g, policy, ScanSection(u, valid, now)), g)
  {
    if AnyReplaced(k.t.s.entries, u) {
      PutReplaced(k.t.s.entries, u, now);
      SameHosts(k.t.s.entries, Put(k.t.s.entries, u, now));
    }
  }

  lemma CleanWritesComplete(k: Track, g: Group, policy: Policy, now: int)
    requires |k.unwritten| == |k.t.s.entries| && WrittenOnceComplete(k, g)
    ensures WrittenOnceComplete(TrackStep(k, g, policy, CleanSection(now)), g)
  {
    SameHosts(k.t.s.entries, Cleaned(k.t.s.entries, now));
  }

  lemma NothingShared(k: Track, g: Group, policy: Policy, e: Entry, addr: Address)
    requires |k.unwritten| == |k.t.s.entries| && !Holds(k.t.s.entries, e, addr)
    ensures TrackStep(k, g, policy, Shared(e, addr, 0)) == k
  {
    var r := TrackStep(k, g, policy, Shared(e, addr, 0));
    assert r.t.s.entries == k.t.s.entries;
    assert r.unwritten == k.unwritten;
  }

  lemma StepWritesComplete(k: Track, g: Group, policy: Policy, e: Event)
    requires |k.unwritten| == |k.t.s.entries| && WrittenOnceComplete(k, g)
    ensures WrittenOnceComplete(TrackStep(k, g, policy, e), g)
  {
    match e {
      case ScanSection(u, valid, now) => ScanWritesComplete(k, g, policy, u, valid, now);
      case CleanSection(now) => CleanWritesComplete(k, g, policy, now);
      case Shared(f, addr, n) => if !Holds(k.t.s.entries, f, addr) && n == 0 { NothingShared(k, g, policy, f, addr); }
      case _ =>
    }
  }

  lemma {:induction false} WritesOnceComplete(left: Option<seq<Record>>, g: Group, policy: Policy, events: seq<Event>)
    ensures WrittenOnceComplete(Tracked(GroupState([], left), g, policy, events), g)
  {
    if events != [] {
      var before := events[..|events| - 1];
      WritesOnceComplete(left, g, policy, before);
      StepWritesComplete(Tracked(GroupState([], left), g, policy, before), g, policy, events[|events| - 1]);
    }
  }

  /** For every history from an empty cache, over whatever an earlier store left in the backend: between passes, once
      all hosts of the group have reported and if it was not disturbed since the last write or read, the stored copy
      has exactly the cached entries and differs only where they are marked stale. */
  lemma CompleteGroupIsStored(left: Option<seq<Record>>, g: Group, policy: Policy, events: seq<Event>)
    ensures var k := Tracked(GroupState([], left), g, policy, events);
            k.t.pass == Idle && !k.disturbed && k.t.s.entries != [] && Complete(k.t.s.entries, g) ==>
              && k.t.s.stored.Some? && |k.t.s.stored.value| == |k.t.s.entries|
              && forall i :: 0 <= i < |k.t.s.entries| ==> StoredAt(k.t.s, i)
  {
    WritesOnceComplete(left, g, policy, events);
    BackendMirrorsCache(GroupState([], left), g, policy, events);
  }

  /** Under the commit-always policy a pass that has changed a complete group is bound to write it. */
  predicate AboutToSave(p: Pass, g: Group)
  {
    ((p.Scanned? && p.scan.found) || p.Inserted?) && |p.scan.hosts| >= |g.hosts|
  }

  predicate SavedOnceComplete(k: Track, g: Group)
  {
    || k.disturbed || k.t.s.entries == [] || !Complete(k.t.s.entries, g)
    || k.t.s.stored == Some(Records(k.t.s.entries)) || AboutToSave(k.t.pass, g)
  }

  lemma ScanSavesComplete(k: Track, g: Group, u: Update, valid: bool, now: int)
    requires |k.unwritten| == |k.t.s.entries| && SavedOnceComplete(k, g)
    ensures SavedOnceComplete(TrackStep(k, g, Always, ScanSection(u, valid, now)), g)
  {
    if AnyReplaced(k.t.s.entries, u) {
      PutReplaced(k.t.s.entries, u, now);
      SameHosts(k.t.s.entries, Put(k.t.s.entries, u, now));
    }
  }

  lemma StepSavesComplete(k: Track, g: Group, e: Event)
    requires |k.unwritten| == |k.t.s.entries| && SavedOnceComplete(k, g)
    ensures SavedOnceComplete(TrackStep(k, g, Always, e), g)
  {
    match e {
      case ScanSection(u, valid, now) => ScanSavesComplete(k, g, u, valid, now);
      case CleanSection(now) => SameHosts(k.t.s.entries, Cleaned(k.t.s.entries, now));
      case Shared(f, addr, n) => if !Holds(k.t.s.entries, f, addr) && n == 0 { NothingShared(k, g, Always, f, addr); }
      case _ =>
    }
  }

  lemma {:induction false} SavesOnceComplete(left: Option<seq<Record>>, g: Group, events: seq<Event>)
    ensures SavedOnceComplete(Tracked(GroupState([], left), g, Always, events), g)
  {
    if events != [] {
      var before := events[..|events| - 1];
      SavesOnceComplete(left, g, before);
      StepSavesComplete(Tracked(GroupState([], left), g, Always, before), g, events[|events| - 1]);
    }
  }

  /** Under the commit-always policy the stored copy of such a group is the cache itself. */
  lemma AlwaysKeepsStored(left: Option<seq<Record>>, g: Group, events: seq<Event>)
    ensures var k := Tracked(GroupState([], left), g, Always, events);
            k.t.pass == Idle && !k.disturbed && k.t.s.entries != [] && Complete(k.t.s.entries, g) ==>
              k.t.s.stored == Some(Records(k.t.s.entries))
  {
    SavesOnceComplete(left, g, events);
  }

  // ----- reading through the cache -----

  /** For every history, a read through the cache leaves the cached results as they are if and only if the group is
      not stored, or the stored copy has as many results and agrees with each entry marked stale or unwritten. */
  lemma CachedReadKeepsResultsIff(start: GroupState, g: Group, policy: Policy, events: seq<Event>)
    ensures var k := Tracked(start, g, policy, events);
            var s := k.t.s;
            Records(CachedRead(s).entries) == Records(s.entries) <==>
            (|| s.stored.None?
             || (&& |s.stored.value| == |s.entries|
                 && forall i :: 0 <= i < |s.entries| && (s.entries[i].stale || k.unwritten[i]) ==> Agrees(s, i)))
  {
    BackendMirrorsCache(start, g, policy, events);
    var k := Tracked(start, g, policy, events);
    var s := k.t.s;
    if s.stored.Some? {
      var rs := s.stored.value;
      if rs == Records(s.entries) {
        forall i | 0 <= i < |s.entries| ensures Agrees(s, i) { }
      }
      if && |rs| == |s.entries|
         && forall i :: 0 <= i < |s.entries| && (s.entries[i].stale || k.unwritten[i]) ==> Agrees(s, i) {
        forall i | 0 <= i < |rs| ensures rs[i] == Records(s.entries)[i] {
          assert k.unwritten[i] || StoredAt(s, i);
        }
        assert rs == Records(s.entries);
      }
    }
  }

  // ----- what disturbs a group -----

  predicate BySection(e: Event) { e.ScanSection? || e.InsertSection? || e.WriteSection? || e.CleanSection? }

  /** Writes succeed, nothing is shared, and no thread gets between a scan and its insertion. */
  predicate Calm(t: State, e: Event)
  {
    && !e.Shared?
    && ((e.WriteSection? || e.Purged? || e.Replaced?) ==> e.storeOk)
    && (t.pass.Scanned? ==> BySection(e) || e.Flushed?)
  }

  predicate CalmThroughout(start: GroupState, g: Group, policy: Policy, events: seq<Event>)
  {
    forall i :: 0 <= i < |events| ==> Calm(After(State(start, Idle), g, policy, events[..i]), events[i])
  }

  /** What a scan that found nothing gathered is still right. */
  predicate ScanRight(t: State)
  {
    t.pass.Scanned? && !t.pass.scan.found ==> t.pass.scan.hosts == HostsOf(t.s.entries) + {t.pass.u.host}
  }

  /** In a calm history a group is never disturbed. */
  lemma {:induction false} NeverDisturbed(left: Option<seq<Record>>, g: Group, policy: Policy, events: seq<Event>)
    requires CalmThroughout(GroupState([], left), g, policy, events)
    ensures var k := Tracked(GroupState([], left), g, policy, events); !k.disturbed && ScanRight(k.t)
  {
    if events != [] {
      var before, e := events[..|events| - 1], events[|events| - 1];
      var start := GroupState([], left);
      assert CalmThroughout(start, g, policy, before) by {
        forall i | 0 <= i < |before| ensures Calm(After(State(start, Idle), g, policy, before[..i]), before[i]) {
          assert before[..i] == events[..i] && before[i] == events[i];
        }
      }
      NeverDisturbed(left, g, policy, before);
      assert Calm(After(State(start, Idle), g, policy, before), e);
      CalmStep(Tracked(start, g, policy, before), g, policy, e);
    }
  }

  lemma CalmStep(k: Track, g: Group, policy: Policy, e: Event)
    requires |k.unwritten| == |k.t.s.entries| && !k.disturbed && ScanRight(k.t) && Calm(k.t, e)
    ensures var r := TrackStep(k, g, policy, e); !r.disturbed && ScanRight(r.t)
  {
    if e.InsertSection? && k.t.pass.Scanned? { HostsGrow(k.t.s.entries, NewEntry(k.t.pass.u, e.now)); }
  }
}
