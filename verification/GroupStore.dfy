/**
 The per-group result cache of the host-group store and the backend it is written to.

 The cache is a multimap from group name to results; one group's results are a sequence in the
 multimap's order, where a new result goes to the end.
 */
module GroupStore {
  import opened Basics

  /** The all-zero address of a family stands for a host whose name has not been resolved. */
  predicate Placeholder(a: Address) { a == V4(0) || a == V6(0) }

  predicate SameFamily(a: Address, b: Address) { a.V4? == b.V4? && a.V6? == b.V6? }

  datatype Result = Result(value: int)

  datatype Entry = Entry(host: string, addr: Address, result: Result, stale: bool, commitTime: int)

  /** What the backend keeps of an entry. */
  datatype Record = Record(host: string, addr: Address, result: Result)

  datatype Update = Update(group: string, host: string, addr: Address, result: Result)

  datatype Group = Group(hosts: seq<string>, ttl: nat, dnsFlow: bool)

  datatype Policy = OnTtl | OnFirst | OnAllReady | Always

  type Cache = map<string, seq<Entry>>
  type Backend = map<string, seq<Record>>

  function Range(c: Cache, g: string): seq<Entry> { if g in c then c[g] else [] }

  function RecordOf(e: Entry): Record { Record(e.host, e.addr, e.result) }

  function Records(es: seq<Entry>): (rs: seq<Record>)
    ensures |rs| == |es| && forall i :: 0 <= i < |es| ==> rs[i] == RecordOf(es[i])
  {
    seq(|es|, i requires 0 <= i < |es| => RecordOf(es[i]))
  }

  // ----- merging one update into a group's results -----

  /** An update replaces the result of its own address or the placeholder of its host and family. */
  predicate Replaces(u: Update, e: Entry)
  {
    e.host == u.host && (e.addr == u.addr || (u.addr.V6? && e.addr == V6(0)) || (u.addr.V4? && e.addr == V4(0)))
  }

  function Merged(e: Entry, u: Update): Entry
  {
    e.(result := u.result, addr := u.addr, stale := true)
  }

  /** The first replaceable entry takes the update; without one the update is appended. */
  function Put(es: seq<Entry>, u: Update, now: int): seq<Entry>
  {
    if es == [] then [Entry(u.host, u.addr, u.result, false, now)]
    else if Replaces(u, es[0]) then [Merged(es[0], u)] + es[1..]
    else [es[0]] + Put(es[1..], u, now)
  }

  /** Within a host and family addresses are distinct and a placeholder comes last. */
  predicate WellKeyed(es: seq<Entry>)
  {
    forall i, j :: 0 <= i < j < |es| && es[i].host == es[j].host && SameFamily(es[i].addr, es[j].addr) ==>
      es[i].addr != es[j].addr && !Placeholder(es[i].addr)
  }

  /** The result a read by host and address returns. */
  function Lookup(es: seq<Entry>, h: string, a: Address): Option<Result>
  {
    if es == [] then None
    else if es[0].host == h && es[0].addr == a then Some(es[0].result)
    else Lookup(es[1..], h, a)
  }

  lemma {:induction false} PutMember(es: seq<Entry>, u: Update, now: int, e: Entry)
    requires e in Put(es, u, now)
    ensures e in es || (e.host == u.host && e.addr == u.addr)
  {
    if es != [] && !Replaces(u, es[0]) && e != es[0] {
      PutMember(es[1..], u, now, e);
    }
  }

  lemma WellKeyedTail(es: seq<Entry>)
    requires es != [] && WellKeyed(es)
    ensures WellKeyed(es[1..])
    ensures forall e :: e in es[1..] && e.host == es[0].host && SameFamily(e.addr, es[0].addr) ==>
              e.addr != es[0].addr && !Placeholder(es[0].addr)
  {
    var t := es[1..];
    forall i, j | 0 <= i < j < |t| && t[i].host == t[j].host && SameFamily(t[i].addr, t[j].addr)
      ensures t[i].addr != t[j].addr && !Placeholder(t[i].addr)
    {
      assert t[i] == es[i + 1] && t[j] == es[j + 1];
    }
  }

  lemma WellKeyedCons(e: Entry, rest: seq<Entry>)
    requires WellKeyed(rest)
    requires forall f :: f in rest && f.host == e.host && SameFamily(f.addr, e.addr) ==>
               f.addr != e.addr && !Placeholder(e.addr)
    ensures WellKeyed([e] + rest)
  {
    var es := [e] + rest;
    forall i, j | 0 <= i < j < |es| && es[i].host == es[j].host && SameFamily(es[i].addr, es[j].addr)
      ensures es[i].addr != es[j].addr && !Placeholder(es[i].addr)
    {
      if i == 0 { assert es[j] in rest; }
      else { assert es[i] == rest[i - 1] && es[j] == rest[j - 1]; }
    }
  }

  /** Merging keeps one result per host and address, although a placeholder may change its address. */
  lemma {:induction false} PutKeepsKeys(es: seq<Entry>, u: Update, now: int)
    requires WellKeyed(es)
    ensures WellKeyed(Put(es, u, now))
  {
    if es != [] {
      WellKeyedTail(es);
      if Replaces(u, es[0]) {
        WellKeyedCons(Merged(es[0], u), es[1..]);
      } else {
        PutKeepsKeys(es[1..], u, now);
        forall f | f in Put(es[1..], u, now) && f.host == es[0].host && SameFamily(f.addr, es[0].addr)
          ensures f.addr != es[0].addr && !Placeholder(es[0].addr)
        {
          PutMember(es[1..], u, now, f);
        }
        WellKeyedCons(es[0], Put(es[1..], u, now));
      }
    }
  }

  /** Merging an update changes the reading of its own address and of no other resolved address, even where an
      address occurs twice. */
  lemma {:induction false} LookupAfterPut(es: seq<Entry>, u: Update, now: int, h: string, a: Address)
    requires Placeholder(a) ==> h == u.host && a == u.addr
    ensures Lookup(Put(es, u, now), h, a) ==
            if h == u.host && a == u.addr then Some(u.result) else Lookup(es, h, a)
  {
    if es != [] {
      var r := Put(es, u, now);
      if Replaces(u, es[0]) {
        assert r[1..] == es[1..];
      } else {
        LookupAfterPut(es[1..], u, now, h, a);
        assert r[1..] == Put(es[1..], u, now);
      }
    }
  }

  // ----- whole histories -----

  function PutAll(us: seq<(Update, int)>): seq<Entry>
  {
    if us == [] then [] else Put(PutAll(us[..|us| - 1]), us[|us| - 1].0, us[|us| - 1].1)
  }

  /** The newest result stored for a host and address. */
  function Latest(us: seq<(Update, int)>, h: string, a: Address): Option<Result>
  {
    if us == [] then None
    else
      var u := us[|us| - 1].0;
      if u.host == h && u.addr == a then Some(u.result) else Latest(us[..|us| - 1], h, a)
  }

  /** After any history of updates the cache has one result per host and address, and for every resolved
      address it is the newest one stored. */
  lemma {:induction false} CacheHoldsLatest(us: seq<(Update, int)>, h: string, a: Address)
    requires !Placeholder(a)
    ensures WellKeyed(PutAll(us))
    ensures Lookup(PutAll(us), h, a) == Latest(us, h, a)
  {
    if us != [] {
      var before, last := us[..|us| - 1], us[|us| - 1];
      CacheHoldsLatest(before, h, a);
      PutKeepsKeys(PutAll(before), last.0, last.1);
      LookupAfterPut(PutAll(before), last.0, last.1, h, a);
    }
  }

  // ----- committing -----

  function HostsOf(es: seq<Entry>): set<string>
  {
    set i | 0 <= i < |es| :: es[i].host
  }

  predicate AnyReplaced(es: seq<Entry>, u: Update)
  {
    exists i :: 0 <= i < |es| && Replaces(u, es[i])
  }

  predicate AllStale(es: seq<Entry>)
  {
    forall i :: 0 <= i < |es| ==> es[i].stale
  }

  /** The oldest commit time among the entries, at most `now`. */
  function Oldest(es: seq<Entry>, now: int): int
  {
    if es == [] then now
    else
      var o := Oldest(es[..|es| - 1], now);
      if es[|es| - 1].commitTime < o then es[|es| - 1].commitTime else o
  }

  /** Every host of the group has reported. */
  predicate Complete(es: seq<Entry>, g: Group)
  {
    |HostsOf(es)| >= |g.hosts|
  }

  /** The commit policy, from what one scan of the group has seen.  A first result for an address always goes out. */
  predicate PolicySays(policy: Policy, g: Group, u: Update, coldStart: bool, allStale: bool, oldest: int, now: int)
  {
    || coldStart
    || policy == Always
    || (policy == OnFirst && g.hosts != [] && u.host == g.hosts[0])
    || (policy == OnAllReady && allStale)
    || (policy == OnTtl && g.ttl < now - oldest)
  }

  /** Is the group written out?  `es` are its entries before the update, `after` with it. */
  predicate Due(policy: Policy, g: Group, es: seq<Entry>, after: seq<Entry>, u: Update, now: int)
  {
    PolicySays(policy, g, u, !AnyReplaced(es, u), AllStale(after), Oldest(after, now), now)
  }

  function Cleaned(es: seq<Entry>, now: int): (r: seq<Entry>)
    ensures |r| == |es| && forall i :: 0 <= i < |es| ==> r[i] == es[i].(stale := false, commitTime := now)
    ensures Records(r) == Records(es)
  {
    var r := seq(|es|, i requires 0 <= i < |es| => es[i].(stale := false, commitTime := now));
    assert Records(r) == Records(es);
    r
  }

  // ----- one group's cache and stored copy, step by step -----

  /** A group's cached results, and what the backend holds for it, if anything. */
  datatype GroupState = GroupState(entries: seq<Entry>, stored: Option<seq<Record>>)

  /** One pass of the commit thread for an update of a configured group.  `valid` is the DNS cache's verdict on
      the address and `storeOk` whether the backend write succeeded, which the commit does not look at. */
  function Commit(s: GroupState, g: Group, policy: Policy, u: Update, valid: bool, now: int, storeOk: bool): GroupState
  {
    if !valid && g.dnsFlow then s
    else
      var after := Put(s.entries, u, now);
      if Complete(after, g) && Due(policy, g, s.entries, after, u, now)
      then GroupState(Cleaned(after, now), if storeOk then Some(Records(after)) else s.stored)
      else s.(entries := after)
  }

  function FromRecord(r: Record): Entry { Entry(r.host, r.addr, r.result, false, 0) }

  function FromRecords(rs: seq<Record>): (es: seq<Entry>)
    ensures |es| == |rs| && forall i :: 0 <= i < |rs| ==> es[i] == FromRecord(rs[i])
    ensures Records(es) == rs
  {
    var es := seq(|rs|, i requires 0 <= i < |rs| => FromRecord(rs[i]));
    assert Records(es) == rs;
    es
  }

  /** A read through the cache first replaces the cached results by the stored ones. */
  function CachedRead(s: GroupState): GroupState
  {
    if s.stored.None? then s else s.(entries := FromRecords(s.stored.value))
  }

  /** A result that came with two addresses: the one it was measured at decides which entries it refreshes, the one
      in its check's header goes into a new entry e. */
  predicate KeyedAt(f: Entry, e: Entry, addr: Address) { f.host == e.host && f.addr == addr }

  predicate Holds(es: seq<Entry>, e: Entry, addr: Address)
  {
    exists i :: 0 <= i < |es| && KeyedAt(es[i], e, addr)
  }

  function WithResult(f: Entry, e: Entry, addr: Address): Entry
  {
    if KeyedAt(f, e, addr) then f.(result := e.result) else f
  }

  function Refreshed(es: seq<Entry>, e: Entry, addr: Address): (r: seq<Entry>)
    ensures |r| == |es| && forall i :: 0 <= i < |es| ==> r[i] == WithResult(es[i], e, addr)
  {
    seq(|es|, i requires 0 <= i < |es| => WithResult(es[i], e, addr))
  }

  function Copies(e: Entry, n: nat): (r: seq<Entry>)
    ensures |r| == n && forall i :: 0 <= i < n ==> r[i] == e
  {
    seq(n, _ => e)
  }

  /** A result shared with the group: matching entries take it, without being marked, and n new ones are added. */
  function ShareInto(es: seq<Entry>, e: Entry, addr: Address, n: nat): seq<Entry>
  {
    Refreshed(es, e, addr) + Copies(e, n)
  }

  /** The first entry of a host and address, or the length. */
  function FirstAt(es: seq<Entry>, h: string, a: Address): (k: nat)
    ensures k <= |es|
    ensures k < |es| ==> es[k].host == h && es[k].addr == a
    ensures forall i :: 0 <= i < k ==> !(es[i].host == h && es[i].addr == a)
  {
    if es == [] then 0
    else if es[0].host == h && es[0].addr == a then 0
    else 1 + FirstAt(es[1..], h, a)
  }

  function Without(es: seq<Entry>, k: nat): seq<Entry>
    requires k < |es|
  {
    es[..k] + es[k + 1..]
  }

  function Written(s: GroupState, es: seq<Entry>, storeOk: bool): GroupState
  {
    GroupState(es, if storeOk then Some(Records(es)) else s.stored)
  }

  /** Purging an address erases its first entry and writes the group out; marks stay as they are. */
  function Purge(s: GroupState, h: string, a: Address, storeOk: bool): GroupState
  {
    var k := FirstAt(s.entries, h, a);
    if k < |s.entries| then Written(s, Without(s.entries, k), storeOk) else s
  }

  /** Bringing the backend up to date after a reload: a group without results is removed from it. */
  function Flush(s: GroupState, storeOk: bool): GroupState
  {
    if !storeOk then s
    else s.(stored := if s.entries == [] then None else Some(Records(s.entries)))
  }

  // ----- what merging does to the entries -----

  predicate FirstReplaced(es: seq<Entry>, u: Update, k: nat)
    requires k < |es|
  {
    Replaces(u, es[k]) && forall j :: 0 <= j < k ==> !Replaces(u, es[j])
  }

  lemma {:induction false} PutAtFirst(es: seq<Entry>, u: Update, now: int, k: nat)
    requires k < |es| && FirstReplaced(es, u, k)
    ensures Put(es, u, now) == es[k := Merged(es[k], u)]
  {
    if k > 0 {
      assert !Replaces(u, es[0]);
      assert es[1..][k - 1] == es[k];
      assert forall j :: 0 <= j < k - 1 ==> es[1..][j] == es[j + 1];
      PutAtFirst(es[1..], u, now, k - 1);
    }
  }

  lemma {:induction false} SomeFirstReplaced(es: seq<Entry>, u: Update) returns (k: nat)
    requires AnyReplaced(es, u)
    ensures k < |es| && FirstReplaced(es, u, k)
  {
    k := 0;
    while !Replaces(u, es[k])
      invariant 0 <= k < |es| && forall j :: 0 <= j < k ==> !Replaces(u, es[j])
      decreases |es| - k
    {
      assert exists i :: k < i < |es| && Replaces(u, es[i]) by {
        var i :| 0 <= i < |es| && Replaces(u, es[i]);
      }
      k := k + 1;
    }
  }

  lemma {:induction false} PutReplaced(es: seq<Entry>, u: Update, now: int)
    requires AnyReplaced(es, u)
    ensures |Put(es, u, now)| == |es|
    ensures forall i :: 0 <= i < |es| ==>
              && Put(es, u, now)[i].host == es[i].host && Put(es, u, now)[i].commitTime == es[i].commitTime
              && (Put(es, u, now)[i] == es[i] || Put(es, u, now)[i].stale)
  {
    var r := Put(es, u, now);
    if Replaces(u, es[0]) {
      assert forall i :: 0 < i < |es| ==> r[i] == es[i];
    } else {
      var k :| 0 <= k < |es| && Replaces(u, es[k]);
      assert es[1..][k - 1] == es[k];
      PutReplaced(es[1..], u, now);
      var t := Put(es[1..], u, now);
      forall i | 0 < i < |es|
        ensures r[i].host == es[i].host && r[i].commitTime == es[i].commitTime && (r[i] == es[i] || r[i].stale)
      {
        assert t[i - 1].host == es[1..][i - 1].host;
      }
    }
  }

  lemma {:induction false} PutAppended(es: seq<Entry>, u: Update, now: int)
    requires !AnyReplaced(es, u)
    ensures Put(es, u, now) == es + [Entry(u.host, u.addr, u.result, false, now)]
  {
    if es != [] {
      forall i | 0 <= i < |es[1..]| ensures !Replaces(u, es[1..][i]) { assert es[1..][i] == es[i + 1]; }
      PutAppended(es[1..], u, now);
      assert es == [es[0]] + es[1..];
    }
  }

  lemma SameHosts(es: seq<Entry>, r: seq<Entry>)
    requires |r| == |es| && forall i :: 0 <= i < |es| ==> r[i].host == es[i].host
    ensures HostsOf(r) == HostsOf(es)
  {
    forall h ensures h in HostsOf(r) <==> h in HostsOf(es) {
      if h in HostsOf(es) { var i :| 0 <= i < |es| && es[i].host == h; assert r[i].host == h; }
    }
  }

  lemma SubsetSize(a: set<string>, b: set<string>)
    requires a <= b
    ensures |a| <= |b|
  {
    assert b == a + (b - a);
  }

  lemma PutKeepsComplete(es: seq<Entry>, u: Update, now: int, g: Group)
    ensures Complete(es, g) ==> Complete(Put(es, u, now), g)
    ensures AnyReplaced(es, u) && !Complete(es, g) ==> !Complete(Put(es, u, now), g)
    ensures Put(es, u, now) != []
  {
    var after := Put(es, u, now);
    if AnyReplaced(es, u) {
      PutReplaced(es, u, now);
      SameHosts(es, after);
    } else {
      PutAppended(es, u, now);
      forall h | h in HostsOf(es) ensures h in HostsOf(after) {
        var i :| 0 <= i < |es| && es[i].host == h;
        assert after[i].host == h;
      }
      SubsetSize(HostsOf(es), HostsOf(after));
    }
  }

  // ----- the commit policies -----

  /** A commit that writes the group out leaves nothing stale, whether or not the write succeeded; cache and
      backend then agree exactly when it did, or when there was nothing new to write. */
  lemma WrittenGroupAgrees(s: GroupState, g: Group, policy: Policy, u: Update, valid: bool, now: int, storeOk: bool)
    requires valid || !g.dnsFlow
    requires var after := Put(s.entries, u, now); Complete(after, g) && Due(policy, g, s.entries, after, u, now)
    ensures var r := Commit(s, g, policy, u, valid, now, storeOk);
            && (forall e :: e in r.entries ==> !e.stale)
            && (r.stored == Some(Records(r.entries)) <==> storeOk || s.stored == Some(Records(Put(s.entries, u, now))))
  {
  }

  lemma {:induction false} OldestIsLeast(es: seq<Entry>, now: int, i: nat)
    requires i < |es|
    ensures Oldest(es, now) <= es[i].commitTime
  {
    if i < |es| - 1 { OldestIsLeast(es[..|es| - 1], now, i); }
  }

  /** Some entry was last marked saved longer ago than the time to live. */
  predicate SomeOlder(es: seq<Entry>, now: int, ttl: nat)
  {
    exists i :: 0 <= i < |es| && now - es[i].commitTime > ttl
  }

  /** What each policy guarantees after every accepted update of a complete group, and, for a known address,
      when the group is not written at all. */
  lemma PolicyGuarantees(s: GroupState, g: Group, policy: Policy, u: Update, now: int, storeOk: bool)
    requires Complete(Put(s.entries, u, now), g)
    ensures var r := Commit(s, g, policy, u, true, now, storeOk);
            && r.entries != []
            && (policy == Always ==> forall i :: 0 <= i < |r.entries| ==> !r.entries[i].stale)
            && (policy == OnFirst && g.hosts != [] && u.host == g.hosts[0] ==>
                  forall i :: 0 <= i < |r.entries| ==> !r.entries[i].stale)
            && (policy == OnAllReady ==> exists i :: 0 <= i < |r.entries| && !r.entries[i].stale)
            && (policy == OnTtl ==> forall i :: 0 <= i < |r.entries| ==> now - r.entries[i].commitTime <= g.ttl)
            && (storeOk && policy == OnTtl && SomeOlder(s.entries, now, g.ttl) ==> r.stored == Some(Records(r.entries)))
            && (policy == OnFirst && AnyReplaced(s.entries, u) && (g.hosts == [] || u.host != g.hosts[0]) ==>
                  r.stored == s.stored)
  {
    var after := Put(s.entries, u, now);
    PutKeepsComplete(s.entries, u, now, g);
    var r := Commit(s, g, policy, u, true, now, storeOk);
    if Due(policy, g, s.entries, after, u, now) {
      assert r.entries == Cleaned(after, now);
      assert !r.entries[0].stale;
    } else if policy == OnTtl {
      forall i | 0 <= i < |after| ensures now - after[i].commitTime <= g.ttl { OldestIsLeast(after, now, i); }
      PutReplaced(s.entries, u, now);
      assert !SomeOlder(s.entries, now, g.ttl);
    }
  }

  // ----- exactly when a group is written -----

  /** No entry of the update's host has its address or is a placeholder of its family. */
  predicate UnknownAddress(es: seq<Entry>, u: Update)
  {
    forall i :: 0 <= i < |es| && es[i].host == u.host ==>
      && es[i].addr != u.addr
      && !(u.addr.V4? && es[i].addr == V4(0))
      && !(u.addr.V6? && es[i].addr == V6(0))
  }

  /** The policies as they are documented, of the entries before and after the update. */
  predicate WantsWrite(policy: Policy, g: Group, es: seq<Entry>, after: seq<Entry>, u: Update, now: int)
  {
    UnknownAddress(es, u) ||
    match policy
    case Always => true
    case OnFirst => |g.hosts| > 0 && g.hosts[0] == u.host
    case OnAllReady => !exists i :: 0 <= i < |after| && !after[i].stale
    case OnTtl => SomeOlder(after, now, g.ttl)
  }

  lemma {:induction false} OldestAttained(es: seq<Entry>, now: int) returns (i: nat)
    requires Oldest(es, now) < now
    ensures i < |es| && es[i].commitTime == Oldest(es, now)
  {
    var n := |es| - 1;
    if es[n].commitTime == Oldest(es, now) {
      i := n;
    } else {
      i := OldestAttained(es[..n], now);
    }
  }

  lemma SomeOlderIff(es: seq<Entry>, now: int, ttl: nat)
    ensures SomeOlder(es, now, ttl) <==> ttl < now - Oldest(es, now)
  {
    if SomeOlder(es, now, ttl) {
      var i :| 0 <= i < |es| && now - es[i].commitTime > ttl;
      OldestIsLeast(es, now, i);
    }
    if ttl < now - Oldest(es, now) {
      var i := OldestAttained(es, now);
      assert now - es[i].commitTime > ttl;
    }
  }

  lemma DueIff(policy: Policy, g: Group, es: seq<Entry>, after: seq<Entry>, u: Update, now: int)
    ensures Due(policy, g, es, after, u, now) <==> WantsWrite(policy, g, es, after, u, now)
  {
    SomeOlderIff(after, now, g.ttl);
    assert UnknownAddress(es, u) <==> !AnyReplaced(es, u);
  }

  /** The group after it was written out: its entries clean and new, its stored copy replaced if that worked. */
  predicate WrittenOut(s: GroupState, after: seq<Entry>, now: int, storeOk: bool, r: GroupState)
  {
    && |r.entries| == |after|
    && (forall i :: 0 <= i < |after| ==>
          r.entries[i] == Entry(after[i].host, after[i].addr, after[i].result, false, now))
    && (!storeOk ==> r.stored == s.stored)
    && (storeOk ==> r.stored.Some? && |r.stored.value| == |after|)
    && (storeOk ==> forall i :: 0 <= i < |after| ==>
          r.stored.value[i] == Record(after[i].host, after[i].addr, after[i].result))
  }

  /** An accepted update has the group written out exactly when as many hosts have results as the group has, and the
      address is new or the policy asks for it; otherwise the stored copy stays as it is and the entries are merged. */
  lemma WrittenExactlyWhen(s: GroupState, g: Group, policy: Policy, u: Update, valid: bool, now: int, storeOk: bool)
    requires valid || !g.dnsFlow
    ensures var after, r := Put(s.entries, u, now), Commit(s, g, policy, u, valid, now, storeOk);
            var hosts := set i | 0 <= i < |after| :: after[i].host;
            if |hosts| >= |g.hosts| && WantsWrite(policy, g, s.entries, after, u, now)
            then WrittenOut(s, after, now, storeOk, r)
            else r == GroupState(after, s.stored)
  {
    var after := Put(s.entries, u, now);
    DueIff(policy, g, s.entries, after, u, now);
    assert HostsOf(after) == set i | 0 <= i < |after| :: after[i].host;
  }

  /** While some entry has nothing new and is not the one an update of a known address merges into, the policy that
      waits for all of them stores nothing; while no entry is older than the time to live, neither does the other. */
  lemma KnownAddressWaits(s: GroupState, g: Group, policy: Policy, u: Update, valid: bool, now: int, storeOk: bool)
    requires !UnknownAddress(s.entries, u)
    requires policy == OnAllReady || policy == OnTtl
    requires policy == OnAllReady ==>
               exists i :: 0 <= i < |s.entries| && !s.entries[i].stale && !FirstReplaced(s.entries, u, i)
    requires policy == OnTtl ==> !SomeOlder(s.entries, now, g.ttl)
    ensures Commit(s, g, policy, u, valid, now, storeOk).stored == s.stored
  {
    if valid || !g.dnsFlow {
      var after := Put(s.entries, u, now);
      WrittenExactlyWhen(s, g, policy, u, valid, now, storeOk);
      assert AnyReplaced(s.entries, u);
      var k := SomeFirstReplaced(s.entries, u);
      PutAtFirst(s.entries, u, now, k);
      if policy == OnAllReady {
        var i :| 0 <= i < |s.entries| && !s.entries[i].stale && !FirstReplaced(s.entries, u, i);
        assert !after[i].stale;
      } else {
        forall i | 0 <= i < |after| ensures !(now - after[i].commitTime > g.ttl) {
          assert after[i].commitTime == s.entries[i].commitTime;
        }
      }
    }
  }

  /** A read through the cache makes every entry old: the next accepted update of a complete group is stored under the
      time-to-live policy, as soon as the clock is past that time. */
  lemma ReadForcesWrite(s: GroupState, g: Group, u: Update, now: int)
    requires s.stored.Some? && s.stored.value != [] && g.ttl < now
    requires Complete(Put(CachedRead(s).entries, u, now), g)
    ensures var r := Commit(CachedRead(s), g, OnTtl, u, true, now, true); r.stored == Some(Records(r.entries))
  {
    var c := CachedRead(s);
    var after := Put(c.entries, u, now);
    WrittenExactlyWhen(c, g, OnTtl, u, true, now, true);
    assert c.entries[0].commitTime == 0;
    if AnyReplaced(c.entries, u) {
      PutReplaced(c.entries, u, now);
      assert now - after[0].commitTime > g.ttl;
    }
  }

  /** Bringing the backend up to date leaves no stored copy of a group without results and otherwise one from which a
      read takes back the same hosts, addresses and results, all clean. */
  lemma FlushThenRead(s: GroupState)
    ensures var f := Flush(s, true);
            && (f.stored.None? <==> s.entries == [])
            && |CachedRead(f).entries| == |s.entries|
            && forall i :: 0 <= i < |s.entries| ==>
                 CachedRead(f).entries[i] == Entry(s.entries[i].host, s.entries[i].addr, s.entries[i].result, false, 0)
  {
    var es := CachedRead(Flush(s, true)).entries;
    forall i | 0 <= i < |s.entries|
      ensures |es| == |s.entries| &&
              es[i] == Entry(s.entries[i].host, s.entries[i].addr, s.entries[i].result, false, 0)
    {
      assert Records(s.entries)[i] == RecordOf(s.entries[i]);
    }
  }
}
