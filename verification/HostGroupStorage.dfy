/**
 The host-group store object: the commit thread's pass over one update, and the sharing of one result
 among the groups that ask for the same check.
 */
module HostGroupStorage {
  import opened Basics
  import opened GroupStore
  import opened GroupHistory

  // ----- sharing one result among groups -----

  /** A group's entries after a result was shared: unless it was not named, refreshed, and extended once for each time
      it was named before the first hit. */
  function SharedWith(es: seq<Entry>, e: Entry, addr: Address, named: bool, n: nat): seq<Entry>
  {
    if named then ShareInto(es, e, addr, n) else es
  }

  /** How often a group is among the first k names. */
  function Times(names: seq<string>, k: nat, g: string): nat
    requires k <= |names|
  {
    if k == 0 then 0 else Times(names, k - 1, g) + (if names[k - 1] == g then 1 else 0)
  }

  /** The group at this position already has the address, or was given it earlier in this call. */
  predicate HitAt(c: Cache, names: seq<string>, e: Entry, addr: Address, k: nat)
    requires k < |names|
  {
    Holds(Range(c, names[k]), e, addr) || (e.addr == addr && Times(names, k, names[k]) > 0)
  }

  function FirstHitFrom(c: Cache, names: seq<string>, e: Entry, addr: Address, k: nat): (r: nat)
    requires k <= |names|
    ensures k <= r <= |names|
    ensures r < |names| ==> HitAt(c, names, e, addr, r)
    ensures forall j :: k <= j < r ==> !HitAt(c, names, e, addr, j)
    decreases |names| - k
  {
    if k == |names| || HitAt(c, names, e, addr, k) then k else FirstHitFrom(c, names, e, addr, k + 1)
  }

  function FirstHit(c: Cache, names: seq<string>, e: Entry, addr: Address): (r: nat)
    ensures r <= |names|
    ensures r < |names| ==> HitAt(c, names, e, addr, r)
    ensures forall j :: 0 <= j < r ==> !HitAt(c, names, e, addr, j)
  {
    FirstHitFrom(c, names, e, addr, 0)
  }

  /** A group's entries once the first k names have been served. */
  function SharedAt(was: Cache, names: seq<string>, e: Entry, addr: Address, k: nat, g: string): seq<Entry>
    requires k <= |names|
  {
    var stop := FirstHit(was, names, e, addr);
    SharedWith(Range(was, g), e, addr, Times(names, k, g) > 0, Times(names, if k < stop then k else stop, g))
  }

  lemma {:induction false} TimesGrows(names: seq<string>, j: nat, k: nat, g: string)
    requires j <= k <= |names|
    ensures Times(names, j, g) <= Times(names, k, g)
  {
    if j < k { TimesGrows(names, j, k - 1, g); }
  }

  lemma SharedHolds(es: seq<Entry>, e: Entry, addr: Address, named: bool, n: nat, x: Address)
    requires n > 0 ==> named
    ensures Holds(SharedWith(es, e, addr, named, n), e, x) <==> Holds(es, e, x) || (n > 0 && e.addr == x)
  {
    var r := SharedWith(es, e, addr, named, n);
    if Holds(es, e, x) {
      var i :| 0 <= i < |es| && KeyedAt(es[i], e, x);
      assert KeyedAt(r[i], e, x);
    } else if n > 0 && e.addr == x {
      assert KeyedAt(r[|es|], e, x);
    } else {
      forall i | 0 <= i < |r| ensures !KeyedAt(r[i], e, x) {
        if i < |es| { assert !KeyedAt(es[i], e, x); }
      }
    }
  }

  lemma RefreshTwice(es: seq<Entry>, e: Entry, addr: Address, named: bool, n: nat)
    requires n > 0 ==> named
    ensures Refreshed(SharedWith(es, e, addr, named, n), e, addr) == SharedWith(es, e, addr, true, n)
    ensures Refreshed(SharedWith(es, e, addr, named, n), e, addr) + [e] == SharedWith(es, e, addr, true, n + 1)
  {
  }

  /** The group has an entry for the host, at the result's address or the header's, with the result. */
  predicate HasResult(es: seq<Entry>, e: Entry, addr: Address)
  {
    exists i :: 0 <= i < |es| && ResultAt(es[i], e, addr)
  }

  predicate ResultAt(f: Entry, e: Entry, addr: Address)
  {
    f.host == e.host && (f.addr == addr || f.addr == e.addr) && f.result == e.result
  }

  lemma SharedHasResult(es: seq<Entry>, e: Entry, addr: Address, n: nat)
    ensures HasResult(ShareInto(es, e, addr, n), e, addr) <==> Holds(es, e, addr) || n > 0 || HasResult(es, e, addr)
  {
    var r := ShareInto(es, e, addr, n);
    if Holds(es, e, addr) {
      var i :| 0 <= i < |es| && KeyedAt(es[i], e, addr);
      assert ResultAt(r[i], e, addr);
    } else if n > 0 {
      assert ResultAt(r[|es|], e, addr);
    } else if HasResult(es, e, addr) {
      var i :| 0 <= i < |es| && ResultAt(es[i], e, addr);
      assert ResultAt(r[i], e, addr);
    } else {
      forall i | 0 <= i < |r| ensures !ResultAt(r[i], e, addr) {
        assert !ResultAt(es[i], e, addr) && !KeyedAt(es[i], e, addr);
      }
    }
  }

  /** The group at position k has the result after the call. */
  predicate Gets(c: Cache, names: seq<string>, e: Entry, addr: Address, k: nat)
    requires k < |names|
  {
    HasResult(SharedAt(c, names, e, addr, |names|, names[k]), e, addr)
  }

  /** It held the measured address, is named before the first hit, or had that very result already. */
  predicate WillGet(c: Cache, names: seq<string>, e: Entry, addr: Address, k: nat)
    requires k < |names|
  {
    || Holds(Range(c, names[k]), e, addr)
    || Times(names, FirstHit(c, names, e, addr), names[k]) > 0
    || HasResult(Range(c, names[k]), e, addr)
  }

  lemma GetsIff(c: Cache, names: seq<string>, e: Entry, addr: Address, k: nat)
    requires k < |names|
    ensures Gets(c, names, e, addr, k) <==> WillGet(c, names, e, addr, k)
    ensures k < FirstHit(c, names, e, addr) ==> WillGet(c, names, e, addr, k)
  {
    var stop := FirstHit(c, names, e, addr);
    TimesGrows(names, k + 1, |names|, names[k]);
    SharedHasResult(Range(c, names[k]), e, addr, Times(names, stop, names[k]));
    if k < stop { TimesGrows(names, k + 1, stop, names[k]); }
  }

  /** Every sharing group ends up with the result exactly when each group named from the first hit on held the address
      it was measured at, was also named before, or had that very result already. */
  lemma AllGroupsGetResultIff(c: Cache, names: seq<string>, e: Entry, addr: Address)
    ensures (forall k :: 0 <= k < |names| ==> Gets(c, names, e, addr, k)) <==>
            (forall k :: FirstHit(c, names, e, addr) <= k < |names| ==> WillGet(c, names, e, addr, k))
  {
    forall k | 0 <= k < |names|
      ensures Gets(c, names, e, addr, k) <==> WillGet(c, names, e, addr, k)
      ensures k < FirstHit(c, names, e, addr) ==> WillGet(c, names, e, addr, k)
    {
      GetsIff(c, names, e, addr, k);
    }
  }

  /** A group that has the address keeps the result from one named after it that has nothing. */
  lemma ShareCanLeaveAGroupOut(e: Entry)
    ensures var c: Cache := map["a" := [e]];
            Gets(c, ["a", "b"], e, e.addr, 0) && !Gets(c, ["a", "b"], e, e.addr, 1)
  {
    var c: Cache := map["a" := [e]];
    var names := ["a", "b"];
    assert KeyedAt([e][0], e, e.addr) && Range(c, "a") == [e] && Range(c, "b") == [];
    assert HitAt(c, names, e, e.addr, 0);
    assert FirstHit(c, names, e, e.addr) == 0;
    GetsIff(c, names, e, e.addr, 0);
    GetsIff(c, names, e, e.addr, 1);
  }

  /** The sharing loop at position k hits exactly from the first hit on. */
  lemma HitStep(was: Cache, names: seq<string>, e: Entry, addr: Address, k: nat)
    requires k < |names|
    ensures var stop := FirstHit(was, names, e, addr);
            (stop < k || Holds(SharedAt(was, names, e, addr, k, names[k]), e, addr)) == (stop <= k)
  {
    var stop := FirstHit(was, names, e, addr);
    var m := if k < stop then k else stop;
    TimesGrows(names, m, k, names[k]);
    SharedHolds(Range(was, names[k]), e, addr, Times(names, k, names[k]) > 0, Times(names, m, names[k]), addr);
    if k < stop { assert !HitAt(was, names, e, addr, k); }
  }

  lemma ShareStep(was: Cache, names: seq<string>, e: Entry, addr: Address, k: nat, g: string)
    requires k < |names|
    ensures var stop := FirstHit(was, names, e, addr);
            var now := SharedAt(was, names, e, addr, k, g);
            SharedAt(was, names, e, addr, k + 1, g) ==
            if g != names[k] then now
            else if stop <= k then Refreshed(now, e, addr) else Refreshed(now, e, addr) + [e]
  {
    var stop := FirstHit(was, names, e, addr);
    var m := if k < stop then k else stop;
    TimesGrows(names, m, k, g);
    RefreshTwice(Range(was, g), e, addr, Times(names, k, g) > 0, Times(names, m, g));
  }

  /** The cache once the first k names have been served. */
  ghost predicate Served(was: Cache, c: Cache, names: seq<string>, e: Entry, addr: Address, k: nat)
    requires k <= |names|
  {
    forall g :: Range(c, g) == SharedAt(was, names, e, addr, k, g)
  }

  lemma ServeStep(was: Cache, c: Cache, names: seq<string>, e: Entry, addr: Address, k: nat, entries: seq<Entry>)
    requires k < |names| && Served(was, c, names, e, addr, k)
    requires var r := Refreshed(Range(c, names[k]), e, addr);
             entries == if FirstHit(was, names, e, addr) <= k then r else r + [e]
    ensures Served(was, c[names[k] := entries], names, e, addr, k + 1)
  {
    var d := c[names[k] := entries];
    forall g ensures Range(d, g) == SharedAt(was, names, e, addr, k + 1, g) {
      assert Range(c, g) == SharedAt(was, names, e, addr, k, g);
      ShareStep(was, names, e, addr, k, g);
    }
  }

  /** A group purged of an address several times over. */
  function PurgeTimes(s: GroupState, host: string, addr: Address, storeOk: bool, n: nat): GroupState
  {
    if n == 0 then s else Purge(PurgeTimes(s, host, addr, storeOk, n - 1), host, addr, storeOk)
  }

  /** What a cache and a backend hold for one group. */
  function ViewOf(c: Cache, b: Backend, name: string): GroupState
  {
    GroupState(Range(c, name), if name in b then Some(b[name]) else None)
  }

  /** What an address is, and whether the backend takes writes while it is purged. */
  datatype Purging = Purging(host: string, addr: Address, storeOk: bool)

  ghost predicate PurgedUpTo(c: Cache, b: Backend, c': Cache, b': Backend, names: seq<string>, k: nat, p: Purging)
    requires k <= |names|
  {
    forall g :: ViewOf(c', b', g) == PurgeTimes(ViewOf(c, b, g), p.host, p.addr, p.storeOk, Times(names, k, g))
  }

  lemma PurgeStepAt(v: GroupState, v1: GroupState, v2: GroupState, names: seq<string>, k: nat, g: string, p: Purging)
    requires k < |names| && v1 == PurgeTimes(v, p.host, p.addr, p.storeOk, Times(names, k, g))
    requires v2 == if g == names[k] then Purge(v1, p.host, p.addr, p.storeOk) else v1
    ensures v2 == PurgeTimes(v, p.host, p.addr, p.storeOk, Times(names, k + 1, g))
  {
  }

  lemma PurgeStep(c: Cache, b: Backend, c1: Cache, b1: Backend, c2: Cache, b2: Backend, names: seq<string>, k: nat,
                  p: Purging)
    requires k < |names| && PurgedUpTo(c, b, c1, b1, names, k, p)
    requires ViewOf(c2, b2, names[k]) == Purge(ViewOf(c1, b1, names[k]), p.host, p.addr, p.storeOk)
    requires forall g :: g != names[k] ==> ViewOf(c2, b2, g) == ViewOf(c1, b1, g)
    ensures PurgedUpTo(c, b, c2, b2, names, k + 1, p)
  {
    forall g
      ensures ViewOf(c2, b2, g) == PurgeTimes(ViewOf(c, b, g), p.host, p.addr, p.storeOk, Times(names, k + 1, g))
    {
      assert ViewOf(c1, b1, g) == PurgeTimes(ViewOf(c, b, g), p.host, p.addr, p.storeOk, Times(names, k, g));
      PurgeStepAt(ViewOf(c, b, g), ViewOf(c1, b1, g), ViewOf(c2, b2, g), names, k, g, p);
    }
  }

  // ----- the store object -----

  /** The commit loop before entry i: entries below i are as the update leaves them. */
  predicate Merging(before: seq<Entry>, now: seq<Entry>, u: Update, i: nat, found: bool)
    requires i <= |before| == |now|
  {
    if found then
      exists k :: 0 <= k < i && FirstReplaced(before, u, k) && now == before[k := Merged(before[k], u)]
    else now == before && forall j :: 0 <= j < i ==> !Replaces(u, before[j])
  }

  lemma MergedIsMergedIn(before: seq<Entry>, merged: seq<Entry>, u: Update, now: int, found: bool)
    requires |before| == |merged| && Merging(before, merged, u, |before|, found)
    ensures found == AnyReplaced(before, u) && merged == MergedIn(before, u, now)
  {
    if found {
      var k :| 0 <= k < |before| && FirstReplaced(before, u, k) && merged == before[k := Merged(before[k], u)];
      PutAtFirst(before, u, now, k);
    }
  }

  lemma PrefixGrows(es: seq<Entry>, i: nat)
    requires i < |es|
    ensures HostsOf(es[..i + 1]) == HostsOf(es[..i]) + {es[i].host}
    ensures AllStale(es[..i + 1]) == (AllStale(es[..i]) && es[i].stale)
  {
    var p, q := es[..i], es[..i + 1];
    assert q == p + [es[i]];
    forall h ensures h in HostsOf(q) <==> h in HostsOf(p) + {es[i].host} {
      if h in HostsOf(p) { var k :| 0 <= k < |p| && p[k].host == h; assert q[k].host == h; }
      if h == es[i].host { assert q[i].host == h; }
    }
    if AllStale(q) {
      forall k | 0 <= k < |p| ensures p[k].stale { assert q[k] == p[k]; }
      assert q[i].stale;
    }
  }

  /** What the commit loop has gathered from the entries it has passed. */
  predicate Gathered(es: seq<Entry>, now: int, allStale: bool, oldest: int, hosts: set<string>)
  {
    allStale == AllStale(es) && oldest == Oldest(es, now) && hosts == HostsOf(es)
  }

  lemma ScanStep(es: seq<Entry>, i: nat, now: int, allStale: bool, oldest: int, hosts: set<string>)
    requires i < |es| && Gathered(es[..i], now, allStale, oldest, hosts)
    ensures Gathered(es[..i + 1], now, allStale && es[i].stale,
                    if es[i].commitTime < oldest then es[i].commitTime else oldest, hosts + {es[i].host})
  {
    PrefixGrows(es, i);
    assert es[..i + 1][..i] == es[..i];
  }

  lemma MergeAt(before: seq<Entry>, u: Update, i: nat)
    requires i < |before| && Merging(before, before, u, i, false) && Replaces(u, before[i])
    ensures var r := before[i := Merged(before[i], u)];
            |r| == |before| && r[..i] == before[..i] && Merging(before, r, u, i + 1, true)
  {
    assert FirstReplaced(before, u, i);
  }

  class HostGroupStore {
    var results: Cache
    var backend: Backend
    var groups: map<string, Group>
    var policy: Policy

    /** What the store holds for one group. */
    function GroupView(name: string): GroupState
      reads this
    {
      ViewOf(results, backend, name)
    }

    /** The scan that merges an update if it can and gathers what the commit policy looks at. */
    static method MergeUpdate(before: seq<Entry>, u: Update, now: int) returns (entries: seq<Entry>, scan: Scan)
      ensures entries == MergedIn(before, u, now) && scan == ScanOf(before, u, now)
    {
      entries := before;
      var found, allStale, oldest, hosts, i := false, true, now, {}, 0;
      while i < |entries|
        invariant 0 <= i <= |entries| == |before|
        invariant Merging(before, entries, u, i, found)
        invariant Gathered(entries[..i], now, allStale, oldest, hosts)
      {
        if !found && Replaces(u, entries[i]) {
          found := true;
          MergeAt(before, u, i);
          entries := entries[i := Merged(entries[i], u)];
        }
        ScanStep(entries, i, now, allStale, oldest, hosts);
        allStale := allStale && entries[i].stale;
        oldest := if entries[i].commitTime < oldest then entries[i].commitTime else oldest;
        hosts := hosts + {entries[i].host};
        i := i + 1;
      }
      assert entries[..i] == entries;
      MergedIsMergedIn(before, entries, u, now, found);
      scan := Scan(found, allStale, oldest, hosts + if found then {} else {u.host});
    }

    /** The first section of a pass. */
    method ScanGroup(u: Update, now: int) returns (scan: Scan)
      modifies this`results
      ensures Range(results, u.group) == MergedIn(Range(old(results), u.group), u, now)
      ensures scan == ScanOf(Range(old(results), u.group), u, now)
      ensures forall g :: g != u.group ==> Range(results, g) == Range(old(results), g)
    {
      var entries;
      entries, scan := MergeUpdate(Range(results, u.group), u, now);
      results := results[u.group := entries];
    }

    /** The second section: insert what the scan did not find, whatever happened since. */
    method InsertUpdate(u: Update, scan: Scan, now: int)
      modifies this`results
      ensures Range(results, u.group) == WithInserted(Range(old(results), u.group), u, scan, now)
      ensures forall g :: g != u.group ==> Range(results, g) == Range(old(results), g)
    {
      if !scan.found {
        results := results[u.group := Range(results, u.group) + [NewEntry(u, now)]];
      }
    }

    /** The third section: write the group as it is. */
    method WriteGroup(name: string, storeOk: bool)
      modifies this`backend
      ensures backend == if storeOk then old(backend)[name := Records(Range(results, name))] else old(backend)
    {
      if storeOk {
        backend := backend[name := Records(Range(results, name))];
      }
    }

    /** The last section: mark every entry clean, whether or not the write succeeded. */
    method MarkClean(name: string, now: int)
      modifies this`results
      ensures Range(results, name) == Cleaned(Range(old(results), name), now)
      ensures forall g :: g != name ==> Range(results, g) == Range(old(results), g)
    {
      var entries := Range(results, name);
      results := results[name := Cleaned(entries, now)];
    }

    /** The commit thread's pass over one update taken from the queue, with nothing between its sections.  An update of
        an unconfigured group is dropped and reported like an empty queue. */
    method CommitHealthCheck(u: Update, valid: bool, now: int, storeOk: bool) returns (progress: bool)
      modifies this`results, this`backend
      ensures progress == (u.group in groups)
      ensures !progress ==> results == old(results) && backend == old(backend)
      ensures progress ==>
                GroupView(u.group) == Commit(old(GroupView(u.group)), groups[u.group], policy, u, valid, now, storeOk)
      ensures forall g :: g != u.group ==> GroupView(g) == old(GroupView(g))
    {
      if u.group !in groups {
        return false;
      }
      var g := groups[u.group];
      if !valid && g.dnsFlow {
        return true;
      }
      PassUpdate(u, g, now, storeOk);
      return true;
    }

    /** The last two sections, as what the scan gathered decides. */
    method WriteIfDue(u: Update, g: Group, scan: Scan, now: int, storeOk: bool)
      modifies this`results, this`backend
      ensures GroupView(u.group) == WrittenIfDue(old(GroupView(u.group)), g, policy, u, scan, now, storeOk)
      ensures forall n :: n != u.group ==> GroupView(n) == old(GroupView(n))
    {
      if |scan.hosts| >= |g.hosts| && PolicySays(policy, g, u, !scan.found, scan.allStale, scan.oldest, now) {
        WriteGroup(u.group, storeOk);
        MarkClean(u.group, now);
      }
    }

    /** The first two sections in a row. */
    method Merge(u: Update, now: int) returns (scan: Scan)
      modifies this`results
      ensures scan == ScanOf(Range(old(results), u.group), u, now)
      ensures Range(results, u.group) == WithInserted(MergedIn(Range(old(results), u.group), u, now), u, scan, now)
      ensures forall g :: g != u.group ==> Range(results, g) == Range(old(results), g)
    {
      scan := ScanGroup(u, now);
      InsertUpdate(u, scan, now);
    }

    /** The four sections of a pass in a row. */
    method PassUpdate(u: Update, g: Group, now: int, storeOk: bool)
      modifies this`results, this`backend
      ensures GroupView(u.group) == Commit(old(GroupView(u.group)), g, policy, u, true, now, storeOk)
      ensures forall n :: n != u.group ==> GroupView(n) == old(GroupView(n))
    {
      ghost var was := GroupView(u.group);
      var scan := Merge(u, now);
      ghost var merged := GroupView(u.group);
      assert merged == was.(entries := WithInserted(MergedIn(was.entries, u, now), u, scan, now));
      WriteIfDue(u, g, scan, now, storeOk);
      assert GroupView(u.group) == WrittenIfDue(merged, g, policy, u, scan, now, storeOk);
      CommitByScan(was, g, policy, u, now, storeOk);
    }

    /** Put a remote host group's results in place of the cached ones and write them out. */
    method StoreHostGroupCheckResult(name: string, entries: seq<Entry>, storeOk: bool)
      modifies this`results, this`backend
      ensures GroupView(name) == Written(old(GroupView(name)), entries, storeOk)
      ensures forall g :: g != name ==> GroupView(g) == old(GroupView(g))
    {
      results := results[name := entries];
      if storeOk {
        backend := backend[name := Records(Range(results, name))];
      }
    }

    /** After a reload: write out those of the given groups that have results, and remove the others from the
        backend. */
    method UpdateHostGroups(names: set<string>, storeOk: bool)
      modifies this`backend
      ensures forall g :: GroupView(g) == if g in names then Flush(old(GroupView(g)), storeOk) else old(GroupView(g))
    {
      var todo := names;
      while todo != {}
        invariant todo <= names
        invariant forall g :: GroupView(g) ==
                    if g in names - todo then Flush(old(GroupView(g)), storeOk) else old(GroupView(g))
      {
        var name :| name in todo;
        if storeOk {
          if Range(results, name) != [] {
            backend := backend[name := Records(Range(results, name))];
          } else {
            backend := backend - {name};
          }
        }
        todo := todo - {name};
      }
    }

    /** Erase the first entry of a host and address from one group. */
    method EraseFirst(name: string, host: string, addr: Address) returns (erased: bool)
      modifies this`results
      ensures var es := old(Range(results, name));
              var k := FirstAt(es, host, addr);
              erased == (k < |es|) && Range(results, name) == if k < |es| then Without(es, k) else es
      ensures forall g :: g != name ==> Range(results, g) == old(Range(results, g))
    {
      var entries, i := Range(results, name), 0;
      while i < |entries| && !(entries[i].host == host && entries[i].addr == addr)
        invariant 0 <= i <= |entries|
        invariant forall j :: 0 <= j < i ==> !(entries[j].host == host && entries[j].addr == addr)
      {
        i := i + 1;
      }
      assert i == FirstAt(entries, host, addr);
      if i == |entries| {
        return false;
      }
      results := results[name := Without(entries, i)];
      return true;
    }

    /** The last group that was found is stored as it is cached. */
    predicate LastSaved(found: bool, last: string, storeOk: bool)
      reads this
    {
      found && storeOk ==> last in backend && backend[last] == Records(Range(results, last))
    }

    /** Purge an address from one group, writing out the last group found so far. */
    method PurgeOne(name: string, host: string, addr: Address, storeOk: bool, found: bool, last: string)
      returns (nowFound: bool, nowLast: string)
      requires LastSaved(found, last, storeOk)
      modifies this`results, this`backend
      ensures LastSaved(nowFound, nowLast, storeOk)
      ensures GroupView(name) == Purge(old(GroupView(name)), host, addr, storeOk)
      ensures forall g :: g != name ==> ViewOf(results, backend, g) == ViewOf(old(results), old(backend), g)
    {
      nowFound, nowLast := found, last;
      ghost var was := Range(results, name);
      var erased := EraseFirst(name, host, addr);
      if erased {
        nowFound, nowLast := true, name;
        if storeOk {
          backend := backend[name := Records(Range(results, name))];
        }
      } else if found && storeOk {
        assert Range(results, last) == Range(old(results), last) by {
          if last == name { assert Range(results, name) == was; }
        }
        backend := backend[last := Records(Range(results, last))];
        assert backend == old(backend);
      }
    }

    /** Purge an address from all groups that share the check: each loses its first entry of the address for each time
        it is named, and is written out.  Once one group was found, a group without the address causes that one to be
        written again, which changes nothing. */
    method PurgeCheckResult(names: seq<string>, host: string, addr: Address, storeOk: bool)
      modifies this`results, this`backend
      ensures forall g :: GroupView(g) == PurgeTimes(old(GroupView(g)), host, addr, storeOk, Times(names, |names|, g))
    {
      ghost var p := Purging(host, addr, storeOk);
      var found, last, k := false, "", 0;
      while k < |names|
        invariant 0 <= k <= |names|
        invariant LastSaved(found, last, storeOk)
        invariant PurgedUpTo(old(results), old(backend), results, backend, names, k, p)
      {
        ghost var c, b := results, backend;
        found, last := PurgeOne(names[k], host, addr, storeOk, found, last);
        PurgeStep(old(results), old(backend), c, b, results, backend, names, k, p);
        k := k + 1;
      }
    }

    /** The scan that refreshes the matching entries of one group. */
    static method RefreshGroup(before: seq<Entry>, e: Entry, addr: Address) returns (entries: seq<Entry>, hit: bool)
      ensures entries == Refreshed(before, e, addr) && hit == Holds(before, e, addr)
    {
      entries, hit := before, false;
      var i := 0;
      while i < |entries|
        invariant 0 <= i <= |entries| == |before|
        invariant hit == exists j :: 0 <= j < i && KeyedAt(before[j], e, addr)
        invariant forall j :: 0 <= j < i ==> entries[j] == WithResult(before[j], e, addr)
        invariant forall j :: i <= j < |before| ==> entries[j] == before[j]
      {
        if KeyedAt(entries[i], e, addr) {
          hit := true;
          entries := entries[i := entries[i].(result := e.result)];
        }
        i := i + 1;
      }
    }

    /** A check result, measured at one address and carried in a header with another, enters the caches of all groups
        that share the check.  `found` is not reset between groups, so the first hit suppresses the insertion into
        every later group. */
    method UpdateCheckResultCache(names: seq<string>, host: string, headerAddr: Address, addr: Address,
                                  result: Result, now: int)
      modifies this`results
      ensures forall g :: Range(results, g) ==
                SharedAt(old(results), names, Entry(host, headerAddr, result, false, now), addr, |names|, g)
    {
      var e := Entry(host, headerAddr, result, false, now);
      ghost var was := results;
      ghost var stop := FirstHit(was, names, e, addr);
      var found, k := false, 0;
      while k < |names|
        invariant 0 <= k <= |names|
        invariant found == (stop < k)
        invariant Served(was, results, names, e, addr, k)
      {
        var entries, hit := RefreshGroup(Range(results, names[k]), e, addr);
        HitStep(was, names, e, addr, k);
        found := found || hit;
        if !found {
          entries := entries + [e];
        }
        ServeStep(was, results, names, e, addr, k, entries);
        results := results[names[k] := entries];
        k := k + 1;
      }
    }
  }
}
