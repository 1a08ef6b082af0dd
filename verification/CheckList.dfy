/**
 The check list: the checks all host groups ask for, each kept once.

 The list is a multimap from (host, host check) to check parameters.  It is a sequence here, in
 insertion order, which is the order of the multimap within one key; an iterator is a position.
 */
module CheckList {
  import opened Basics

  datatype HostCheck = HostCheck(
    checkType: nat,
    port: nat,
    dualstack: nat,
    checkInfo: string,
    remoteCheck: string,
    source: Address,
    tos: nat,
    fallback: nat,
    flow: nat,
    dnsType: nat,
    plugin: nat,
    remoteCheckType: nat)

  const INVALID_CHECK_TYPE: nat := 24

  /** The equality of host checks.  It leaves out the DNS type, the plugin and the remote check type. */
  predicate SameCheck(a: HostCheck, b: HostCheck)
  {
    && a.checkType == b.checkType && a.port == b.port && a.dualstack == b.dualstack
    && a.checkInfo == b.checkInfo && a.remoteCheck == b.remoteCheck && a.source == b.source
    && a.tos == b.tos && a.fallback == b.fallback && a.flow == b.flow
  }

  /** The equivalence of the list's own ordering, which also tells DNS types apart. */
  predicate SameKey(a: HostCheck, b: HostCheck)
  {
    SameCheck(a, b) && a.dnsType == b.dnsType
  }

  function Erase(c: HostCheck): HostCheck { c.(remoteCheck := "") }

  datatype Params = Params(
    retries: nat,
    retryDelay: nat,
    measurement: nat,
    smoothing: nat,
    groupThreshold: nat,
    slowThreshold: nat,
    maxFlaps: nat,
    timeout: nat,
    ttl: nat,
    flapThreshold: nat,
    passthrough: nat)

  const DEFAULT_SMOOTHING: nat := 10

  datatype Group = Group(name: string, hosts: seq<string>, check: HostCheck, params: Params)

  function ParamsOf(g: Group): Params
  {
    if g.params.smoothing == 0 then g.params.(smoothing := DEFAULT_SMOOTHING) else g.params
  }

  /** One piece of work: a check of a host under given parameters. */
  datatype Slot = Slot(host: string, check: HostCheck, params: Params)

  predicate SameSlot(a: Slot, b: Slot)
  {
    a.host == b.host && SameKey(a.check, b.check) && a.params == b.params
  }

  datatype Entry = Entry(slot: Slot, groups: seq<string>, results: map<Address, int>)

  /** An element of the secondary index: a key without its remote check, and an iterator. */
  datatype Ref = Ref(host: string, check: HostCheck, at: nat)

  datatype List = List(entries: seq<Entry>, refs: seq<Ref>)

  // ----- the naive list: one ask per group and host -----

  datatype Ask = Ask(slot: Slot, group: string)

  function Asks(g: Group): (r: seq<Ask>)
    ensures |r| == if g.check.checkType < INVALID_CHECK_TYPE then |g.hosts| else 0
  {
    if g.check.checkType < INVALID_CHECK_TYPE
    then seq(|g.hosts|, i requires 0 <= i < |g.hosts| => Ask(Slot(g.hosts[i], g.check, ParamsOf(g)), g.name))
    else []
  }

  /** The groups that asked for a slot, in order and with repetitions. */
  function Askers(asks: seq<Ask>, s: Slot): seq<string>
  {
    if asks == [] then []
    else
      var last := asks[|asks| - 1];
      Askers(asks[..|asks| - 1], s) + (if SameSlot(last.slot, s) then [last.group] else [])
  }

  /** s was first asked for in exactly this form. */
  predicate FirstAskedAs(asks: seq<Ask>, s: Slot)
  {
    exists k :: 0 <= k < |asks| && asks[k].slot == s && forall j :: 0 <= j < k ==> !SameSlot(asks[j].slot, s)
  }

  // ----- the deduplicating index -----

  /** The first entry with the given slot, or the length. */
  function Find(es: seq<Entry>, s: Slot): (i: nat)
    ensures i <= |es|
    ensures i < |es| ==> SameSlot(es[i].slot, s)
    ensures forall j :: 0 <= j < i ==> !SameSlot(es[j].slot, s)
  {
    if es == [] then 0
    else
      var i := Find(es[..|es| - 1], s);
      if i < |es| - 1 || SameSlot(es[|es| - 1].slot, s) then i else |es|
  }

  function AddAsk(l: List, a: Ask): List
  {
    var i := Find(l.entries, a.slot);
    if i < |l.entries| then
      l.(entries := l.entries[i := l.entries[i].(groups := l.entries[i].groups + [a.group])])
    else
      List(l.entries + [Entry(a.slot, [a.group], map[])],
           l.refs + [Ref(a.slot.host, Erase(a.slot.check), |l.entries|)])
  }

  function AddAsks(l: List, asks: seq<Ask>): List
  {
    if asks == [] then l else AddAsk(AddAsks(l, asks[..|asks| - 1]), asks[|asks| - 1])
  }

  function Updated(es: seq<Entry>, s: Slot, addr: Address, v: int): (r: seq<Entry>)
    ensures |r| == |es|
    ensures forall i :: 0 <= i < |es| ==>
              r[i] == if SameSlot(es[i].slot, s) then es[i].(results := es[i].results[addr := v]) else es[i]
  {
    seq(|es|, i requires 0 <= i < |es| =>
      if SameSlot(es[i].slot, s) then es[i].(results := es[i].results[addr := v]) else es[i])
  }

  /** The slot belongs to the key. */
  predicate ForKey(s: Slot, host: string, check: HostCheck)
  {
    s.host == host && SameKey(s.check, check)
  }

  /** An invalidation is for one parameter set of a key, or for all of them. */
  predicate Concerns(s: Slot, host: string, check: HostCheck, params: Option<Params>)
  {
    ForKey(s, host, check) && (params.None? || s.params == params.value)
  }

  function Invalidated(es: seq<Entry>, host: string, check: HostCheck, params: Option<Params>,
                       addr: Address): (r: seq<Entry>)
    ensures |r| == |es|
    ensures forall i :: 0 <= i < |es| ==>
              r[i] == if Concerns(es[i].slot, host, check, params)
                      then es[i].(results := es[i].results - {addr}) else es[i]
  {
    seq(|es|, i requires 0 <= i < |es| =>
      if Concerns(es[i].slot, host, check, params) then es[i].(results := es[i].results - {addr}) else es[i])
  }

  // ----- histories -----

  datatype Op =
    | Add(group: Group)
    | Update(slot: Slot, addr: Address, value: int)
    | Invalidate(host: string, check: HostCheck, params: Option<Params>, addr: Address)
    | SetGuard(guard: bool)

  datatype State = State(list: List, guard: bool)

  function Apply(s: State, op: Op): State
  {
    match op
    case Add(g) => if s.guard then s else s.(list := AddAsks(s.list, Asks(g)))
    case Update(slot, addr, v) => s.(list := s.list.(entries := Updated(s.list.entries, slot, addr, v)))
    case Invalidate(host, check, params, addr) =>
      s.(list := s.list.(entries := Invalidated(s.list.entries, host, check, params, addr)))
    case SetGuard(b) => s.(guard := b)
  }

  function Run(ops: seq<Op>): State
  {
    if ops == [] then State(List([], []), false) else Apply(Run(ops[..|ops| - 1]), ops[|ops| - 1])
  }

  /** The asks an operation adds. */
  function NewAsks(s: State, op: Op): seq<Ask>
  {
    if op.Add? && !s.guard then Asks(op.group) else []
  }

  /** The asks that reached the list: those of groups added while the guard was off. */
  function Asked(ops: seq<Op>): seq<Ask>
  {
    if ops == [] then []
    else
      var before, op := ops[..|ops| - 1], ops[|ops| - 1];
      Asked(before) + NewAsks(Run(before), op)
  }

  /** The newest result reported for a slot and address since the slot was first asked for and the address last
      invalidated. */
  function Reported(ops: seq<Op>, s: Slot, addr: Address): Option<int>
  {
    if ops == [] then None
    else
      var before, op := ops[..|ops| - 1], ops[|ops| - 1];
      if op.Update? && SameSlot(op.slot, s) && op.addr == addr && Askers(Asked(before), s) != []
      then Some(op.value)
      else if op.Invalidate? && Concerns(s, op.host, op.check, op.params) && op.addr == addr then None
      else Reported(before, s, addr)
  }

  function ReadEntry(e: Entry, addr: Address): Option<int>
  {
    if addr in e.results then Some(e.results[addr]) else None
  }

  /** What a group reads for one of its own asks. */
  function Read(l: List, s: Slot, addr: Address): Option<int>
  {
    var i := Find(l.entries, s);
    if i < |l.entries| then ReadEntry(l.entries[i], addr) else None
  }

  // ----- one entry per distinct slot -----

  predicate Unique(es: seq<Entry>)
  {
    forall i, j :: 0 <= i < j < |es| ==> !SameSlot(es[i].slot, es[j].slot)
  }

  /** The list keeps every distinct slot exactly once, under the form it was first asked in, with its askers. */
  predicate Represents(es: seq<Entry>, asks: seq<Ask>)
  {
    Covers(es, asks) && forall i :: 0 <= i < |es| ==> HasItsAskers(es[i], asks)
  }

  predicate Covers(es: seq<Entry>, asks: seq<Ask>)
  {
    Unique(es) && forall k :: 0 <= k < |asks| ==> Find(es, asks[k].slot) < |es|
  }

  predicate HasItsAskers(e: Entry, asks: seq<Ask>)
  {
    e.groups == Askers(asks, e.slot) && e.groups != [] && FirstAskedAs(asks, e.slot)
  }

  lemma FindIs(es: seq<Entry>, s: Slot, i: nat)
    requires Unique(es) && i < |es| && SameSlot(es[i].slot, s)
    ensures Find(es, s) == i
  {
  }

  lemma AskersLast(asks: seq<Ask>, a: Ask, s: Slot)
    ensures Askers(asks + [a], s) == Askers(asks, s) + (if SameSlot(a.slot, s) then [a.group] else [])
  {
    assert (asks + [a])[..|asks|] == asks;
  }

  lemma {:induction false} AskersSame(asks: seq<Ask>, s: Slot, t: Slot)
    requires SameSlot(s, t)
    ensures Askers(asks, s) == Askers(asks, t)
  {
    if asks != [] { AskersSame(asks[..|asks| - 1], s, t); }
  }

  lemma {:induction false} AskersEmpty(asks: seq<Ask>, s: Slot)
    ensures Askers(asks, s) == [] <==> forall k :: 0 <= k < |asks| ==> !SameSlot(asks[k].slot, s)
  {
    if asks != [] {
      var p := asks[..|asks| - 1];
      AskersEmpty(p, s);
      assert forall k :: 0 <= k < |p| ==> asks[k] == p[k];
    }
  }

  /** A slot has an entry exactly when somebody asked for it. */
  lemma FoundIffAsked(es: seq<Entry>, asks: seq<Ask>, s: Slot)
    requires Represents(es, asks)
    ensures Find(es, s) < |es| <==> Askers(asks, s) != []
  {
    AskersEmpty(asks, s);
    var i := Find(es, s);
    if i < |es| { AskersSame(asks, es[i].slot, s); }
    if Askers(asks, s) != [] {
      var k :| 0 <= k < |asks| && SameSlot(asks[k].slot, s);
      assert Find(es, asks[k].slot) < |es|;
      assert SameSlot(es[Find(es, asks[k].slot)].slot, s);
    }
  }

  lemma FirstAskedGrows(asks: seq<Ask>, a: Ask, s: Slot)
    requires FirstAskedAs(asks, s)
    ensures FirstAskedAs(asks + [a], s)
  {
    var k :| 0 <= k < |asks| && asks[k].slot == s && forall j :: 0 <= j < k ==> !SameSlot(asks[j].slot, s);
    var more := asks + [a];
    assert more[k].slot == s && forall j :: 0 <= j < k ==> more[j] == asks[j];
  }

  lemma FindKept(es: seq<Entry>, fs: seq<Entry>, s: Slot)
    requires |es| <= |fs| && Find(es, s) < |es|
    requires forall i :: 0 <= i < |es| ==> fs[i].slot == es[i].slot
    ensures Find(fs, s) == Find(es, s)
  {
    var i := Find(es, s);
    assert SameSlot(fs[i].slot, s);
  }

  lemma FreshEntry(asks: seq<Ask>, a: Ask)
    requires Askers(asks, a.slot) == []
    ensures HasItsAskers(Entry(a.slot, [a.group], map[]), asks + [a])
  {
    AskersEmpty(asks, a.slot);
    AskersLast(asks, a, a.slot);
    var more := asks + [a];
    assert more[|asks|].slot == a.slot && forall j :: 0 <= j < |asks| ==> more[j] == asks[j];
  }

  lemma GrownEntry(e: Entry, asks: seq<Ask>, a: Ask)
    requires HasItsAskers(e, asks)
    ensures HasItsAskers(if SameSlot(a.slot, e.slot) then e.(groups := e.groups + [a.group]) else e, asks + [a])
  {
    AskersLast(asks, a, e.slot);
    FirstAskedGrows(asks, a, e.slot);
  }

  lemma AddNew(l: List, asks: seq<Ask>, a: Ask)
    requires Represents(l.entries, asks) && Find(l.entries, a.slot) == |l.entries|
    ensures Represents(AddAsk(l, a).entries, asks + [a])
  {
    var es, more := l.entries, asks + [a];
    var fs := AddAsk(l, a).entries;
    assert fs == es + [Entry(a.slot, [a.group], map[])];
    FoundIffAsked(es, asks, a.slot);
    forall i | 0 <= i < |fs| ensures HasItsAskers(fs[i], more) {
      if i < |es| {
        assert !SameSlot(es[i].slot, a.slot);
        GrownEntry(es[i], asks, a);
      } else {
        FreshEntry(asks, a);
      }
    }
    AppendFound(es, asks, a);
  }

  lemma AppendFound(es: seq<Entry>, asks: seq<Ask>, a: Ask)
    requires Covers(es, asks) && Find(es, a.slot) == |es|
    ensures Covers(es + [Entry(a.slot, [a.group], map[])], asks + [a])
  {
    var fs, more := es + [Entry(a.slot, [a.group], map[])], asks + [a];
    assert SameSlot(fs[|es|].slot, a.slot);
    forall k | 0 <= k < |more| ensures Find(fs, more[k].slot) < |fs| {
      if k < |asks| { FindKept(es, fs, asks[k].slot); }
    }
  }

  lemma SameSlotsCover(es: seq<Entry>, fs: seq<Entry>, asks: seq<Ask>)
    requires Covers(es, asks) && |fs| == |es| && forall i :: 0 <= i < |es| ==> fs[i].slot == es[i].slot
    ensures Covers(fs, asks)
  {
    forall k | 0 <= k < |asks| ensures Find(fs, asks[k].slot) < |fs| {
      FindKept(es, fs, asks[k].slot);
    }
  }

  lemma AddKnown(l: List, asks: seq<Ask>, a: Ask)
    requires Represents(l.entries, asks) && Find(l.entries, a.slot) < |l.entries|
    ensures Represents(AddAsk(l, a).entries, asks + [a])
  {
    var es, more := l.entries, asks + [a];
    var fs := AddAsk(l, a).entries;
    KnownCover(es, asks, a);
    SameSlotsCover(es, fs, more);
    forall i | 0 <= i < |fs| ensures HasItsAskers(fs[i], more) { KnownAskers(l, asks, a, i); }
  }

  lemma KnownAskers(l: List, asks: seq<Ask>, a: Ask, i: nat)
    requires Represents(l.entries, asks) && Find(l.entries, a.slot) < |l.entries| && i < |l.entries|
    ensures |AddAsk(l, a).entries| == |l.entries| && HasItsAskers(AddAsk(l, a).entries[i], asks + [a])
  {
    assert HasItsAskers(l.entries[i], asks);
    KnownEntry(l.entries, a, i);
    GrownEntry(l.entries[i], asks, a);
  }

  lemma KnownCover(es: seq<Entry>, asks: seq<Ask>, a: Ask)
    requires Covers(es, asks) && Find(es, a.slot) < |es|
    ensures Covers(es, asks + [a])
  {
  }

  lemma KnownEntry(es: seq<Entry>, a: Ask, i: nat)
    requires Unique(es) && i < |es|
    ensures SameSlot(a.slot, es[i].slot) <==> i == Find(es, a.slot)
  {
    if SameSlot(a.slot, es[i].slot) { FindIs(es, a.slot, i); }
  }

  lemma {:induction false} AddAsksRepresents(l: List, asks: seq<Ask>, new_: seq<Ask>)
    requires Represents(l.entries, asks)
    ensures Represents(AddAsks(l, new_).entries, asks + new_)
  {
    if new_ == [] {
      assert asks + new_ == asks;
    } else {
      var init, last := new_[..|new_| - 1], new_[|new_| - 1];
      AddAsksRepresents(l, asks, init);
      assert asks + new_ == (asks + init) + [last];
      var m := AddAsks(l, init);
      if Find(m.entries, last.slot) < |m.entries| { AddKnown(m, asks + init, last); }
      else { AddNew(m, asks + init, last); }
    }
  }

  lemma SameSlotsRepresent(es: seq<Entry>, fs: seq<Entry>, asks: seq<Ask>)
    requires Represents(es, asks) && |fs| == |es|
    requires forall i :: 0 <= i < |es| ==> fs[i].slot == es[i].slot && fs[i].groups == es[i].groups
    ensures Represents(fs, asks)
  {
    SameSlotsCover(es, fs, asks);
    forall i | 0 <= i < |fs| ensures HasItsAskers(fs[i], asks) {
      assert HasItsAskers(es[i], asks);
    }
  }

  lemma StepRepresents(s: State, op: Op, asks: seq<Ask>)
    requires Represents(s.list.entries, asks)
    ensures Represents(Apply(s, op).list.entries, asks + NewAsks(s, op))
  {
    if op.Add? && !s.guard {
      AddAsksRepresents(s.list, asks, Asks(op.group));
    } else {
      assert asks + [] == asks;
      if op.Update? || op.Invalidate? { SameSlotsRepresent(s.list.entries, Apply(s, op).list.entries, asks); }
    }
  }

  /** After any history of groups added, results reported and guard changes there is exactly one entry per
      distinct (host, host check, parameters) asked for, and the groups on it are exactly its askers. */
  lemma {:induction false} OneEntryPerSlot(ops: seq<Op>)
    ensures Represents(Run(ops).list.entries, Asked(ops))
  {
    if ops != [] {
      var before := ops[..|ops| - 1];
      OneEntryPerSlot(before);
      StepRepresents(Run(before), ops[|ops| - 1], Asked(before));
    }
  }

  // ----- what adding a group does, spelled out -----

  /** The parameters an entry should have for a group configured with q: the same, with the default window for none. */
  predicate ParamsFor(p: Params, q: Params)
  {
    && p.retries == q.retries && p.retryDelay == q.retryDelay && p.measurement == q.measurement
    && p.smoothing == (if q.smoothing == 0 then 10 else q.smoothing)
    && p.groupThreshold == q.groupThreshold && p.slowThreshold == q.slowThreshold && p.maxFlaps == q.maxFlaps
    && p.timeout == q.timeout && p.ttl == q.ttl && p.flapThreshold == q.flapThreshold && p.passthrough == q.passthrough
  }

  /** The entry is for a host of the group, under its check and parameters. */
  predicate ServesHost(s: Slot, g: Group, h: string)
  {
    s.host == h && SameKey(s.check, g.check) && ParamsFor(s.params, g.params)
  }

  function Occurrences(hosts: seq<string>, h: string): nat
  {
    if hosts == [] then 0
    else Occurrences(hosts[..|hosts| - 1], h) + (if hosts[|hosts| - 1] == h then 1 else 0)
  }

  function Repeated(name: string, n: nat): seq<string>
  {
    if n == 0 then [] else Repeated(name, n - 1) + [name]
  }

  lemma {:induction false} AskersConcat(a: seq<Ask>, b: seq<Ask>, s: Slot)
    ensures Askers(a + b, s) == Askers(a, s) + Askers(b, s)
  {
    if b == [] {
      assert a + b == a;
    } else {
      var c, last := b[..|b| - 1], b[|b| - 1];
      AskersConcat(a, c, s);
      assert a + b == (a + c) + [last] && b == c + [last];
      AskersLast(a + c, last, s);
      AskersLast(c, last, s);
      NamesAssoc(Askers(a, s), Askers(c, s), if SameSlot(last.slot, s) then [last.group] else []);
    }
  }

  lemma NamesAssoc(a: seq<string>, b: seq<string>, c: seq<string>)
    ensures (a + b) + c == a + (b + c)
  {
  }

  lemma {:induction false} AskersOfGroup(g: Group, s: Slot, k: nat)
    requires g.check.checkType < INVALID_CHECK_TYPE && k <= |g.hosts|
    ensures Askers(Asks(g)[..k], s) ==
            if ServesHost(s, g, s.host) then Repeated(g.name, Occurrences(g.hosts[..k], s.host)) else []
  {
    if k > 0 {
      var h := g.hosts[k - 1];
      AskersOfGroup(g, s, k - 1);
      LastAsk(g, k);
      LastOccurrence(g.hosts, k, s.host);
      AskersLast(Asks(g)[..k - 1], Ask(Slot(h, g.check, ParamsOf(g)), g.name), s);
      SlotServes(g, h, s);
    }
  }

  lemma LastAsk(g: Group, k: nat)
    requires g.check.checkType < INVALID_CHECK_TYPE && 0 < k <= |g.hosts|
    ensures Asks(g)[..k] == Asks(g)[..k - 1] + [Ask(Slot(g.hosts[k - 1], g.check, ParamsOf(g)), g.name)]
  {
  }

  lemma LastOccurrence(hosts: seq<string>, k: nat, h: string)
    requires 0 < k <= |hosts|
    ensures Occurrences(hosts[..k], h) == Occurrences(hosts[..k - 1], h) + (if hosts[k - 1] == h then 1 else 0)
  {
    assert hosts[..k][..k - 1] == hosts[..k - 1];
  }

  lemma SlotServes(g: Group, h: string, s: Slot)
    ensures SameSlot(Slot(h, g.check, ParamsOf(g)), s) <==> ServesHost(s, g, h)
  {
    var p, q := s.params, ParamsOf(g);
    assert ParamsFor(p, g.params) <==> p == q;
  }

  lemma {:induction false} AddAsksKeepsPlaces(l: List, asks: seq<Ask>)
    ensures |l.entries| <= |AddAsks(l, asks).entries|
    ensures forall i :: 0 <= i < |l.entries| ==> AddAsks(l, asks).entries[i].slot == l.entries[i].slot
  {
    if asks != [] { AddAsksKeepsPlaces(l, asks[..|asks| - 1]); }
  }

  lemma NewPlaceIsUnasked(es: seq<Entry>, fs: seq<Entry>, asks: seq<Ask>, i: nat)
    requires Represents(es, asks) && Unique(fs) && |es| <= i < |fs|
    requires forall j :: 0 <= j < |es| ==> fs[j].slot == es[j].slot
    ensures Askers(asks, fs[i].slot) == []
  {
    FoundIffAsked(es, asks, fs[i].slot);
    assert forall j :: 0 <= j < |es| ==> !SameSlot(es[j].slot, fs[i].slot);
  }

  /** The groups listed for a slot, before and after. */
  lemma AskersAfterAdding(asked: seq<Ask>, g: Group, s: Slot)
    requires g.check.checkType < INVALID_CHECK_TYPE
    ensures Askers(asked + Asks(g), s) == Askers(asked, s) +
              if ServesHost(s, g, s.host) then Repeated(g.name, Occurrences(g.hosts, s.host)) else []
  {
    AskersConcat(asked, Asks(g), s);
    assert Asks(g)[..|g.hosts|] == Asks(g) && g.hosts[..|g.hosts|] == g.hosts;
    AskersOfGroup(g, s, |g.hosts|);
  }

  lemma AddedEntry(es: seq<Entry>, fs: seq<Entry>, asked: seq<Ask>, g: Group, i: nat)
    requires Represents(es, asked) && Represents(fs, asked + Asks(g)) && i < |fs| && |es| <= |fs|
    requires forall j :: 0 <= j < |es| ==> fs[j].slot == es[j].slot
    requires g.check.checkType < INVALID_CHECK_TYPE
    ensures fs[i].groups == (if i < |es| then es[i].groups else []) +
              if ServesHost(fs[i].slot, g, fs[i].slot.host)
              then Repeated(g.name, Occurrences(g.hosts, fs[i].slot.host)) else []
    ensures i >= |es| ==> fs[i].slot.host in g.hosts && ServesHost(fs[i].slot, g, fs[i].slot.host)
  {
    assert HasItsAskers(fs[i], asked + Asks(g));
    AskersAfterAdding(asked, g, fs[i].slot);
    if i < |es| {
      assert HasItsAskers(es[i], asked);
    } else {
      NewPlaceIsUnasked(es, fs, asked, i);
      OccursIn(g.hosts, fs[i].slot.host);
    }
  }

  /** What adding a group does to the entries, over every history with the guard off: entries stay in place, and the
      entry at each place is listed by the group once more for every time the group names its host, if it is for the
      group's check and parameters, and is otherwise listed as before; entries at new places are for hosts of the
      group, and were not listed. */
  lemma AddingListsExactlyItsHosts(ops: seq<Op>, g: Group, i: nat)
    requires !Run(ops).guard && g.check.checkType < 24
    requires i < |Run(ops + [Add(g)]).list.entries|
    ensures var es, fs := Run(ops).list.entries, Run(ops + [Add(g)]).list.entries;
            && (i < |es| ==> fs[i].slot == es[i].slot)
            && fs[i].groups == (if i < |es| then es[i].groups else []) +
                 (if ServesHost(fs[i].slot, g, fs[i].slot.host)
                  then Repeated(g.name, Occurrences(g.hosts, fs[i].slot.host)) else [])
            && (i >= |es| ==> fs[i].slot.host in g.hosts && ServesHost(fs[i].slot, g, fs[i].slot.host))
  {
    RunAdd(ops, g);
    OneEntryPerSlot(ops);
    OneEntryPerSlot(ops + [Add(g)]);
    AddAsksKeepsPlaces(Run(ops).list, Asks(g));
    AddedEntry(Run(ops).list.entries, Run(ops + [Add(g)]).list.entries, Asked(ops), g, i);
  }

  lemma RunAdd(ops: seq<Op>, g: Group)
    requires !Run(ops).guard
    ensures Run(ops + [Add(g)]).list == AddAsks(Run(ops).list, Asks(g))
    ensures Asked(ops + [Add(g)]) == Asked(ops) + Asks(g)
  {
    assert (ops + [Add(g)])[..|ops|] == ops;
  }

  lemma {:induction false} OccursIn(hosts: seq<string>, h: string)
    ensures Occurrences(hosts, h) > 0 <==> h in hosts
  {
    if hosts != [] {
      OccursIn(hosts[..|hosts| - 1], h);
      assert hosts == hosts[..|hosts| - 1] + [hosts[|hosts| - 1]];
    }
  }

  /** And every host of the group is served. */
  lemma AddingServesEveryHost(ops: seq<Op>, g: Group, h: string)
    requires !Run(ops).guard && g.check.checkType < 24 && h in g.hosts
    ensures var fs := Run(ops + [Add(g)]).list.entries;
            exists i :: 0 <= i < |fs| && ServesHost(fs[i].slot, g, h) && g.name in fs[i].groups
  {
    var fs := Run(ops + [Add(g)]).list.entries;
    RunAdd(ops, g);
    OneEntryPerSlot(ops + [Add(g)]);
    var i := PlaceOfHost(fs, Asked(ops), g, h);
    AddingListsExactlyItsHosts(ops, g, i);
    OccursIn(g.hosts, h);
    RepeatedHas(g.name, Occurrences(g.hosts, h));
  }

  lemma PlaceOfHost(fs: seq<Entry>, asked: seq<Ask>, g: Group, h: string) returns (i: nat)
    requires Represents(fs, asked + Asks(g)) && g.check.checkType < INVALID_CHECK_TYPE && h in g.hosts
    ensures i < |fs| && ServesHost(fs[i].slot, g, h)
  {
    var k :| 0 <= k < |g.hosts| && g.hosts[k] == h;
    var ask := Ask(Slot(h, g.check, ParamsOf(g)), g.name);
    assert Asks(g)[k] == ask;
    assert (asked + Asks(g))[|asked| + k] == ask;
    i := EntryOfAsk(fs, asked + Asks(g), |asked| + k);
    SlotServes(g, h, fs[i].slot);
  }

  lemma {:induction false} RepeatedHas(name: string, n: nat)
    requires n > 0
    ensures name in Repeated(name, n)
  {
  }

  /** Under the guard, and for an invalid check type, adding a group changes nothing. */
  lemma AddingRefused(ops: seq<Op>, g: Group)
    requires Run(ops).guard || g.check.checkType >= 24
    ensures Run(ops + [Add(g)]) == Run(ops)
  {
    assert (ops + [Add(g)])[..|ops|] == ops;
  }

  // ----- reading results back -----

  lemma {:induction false} AddAsksRead(l: List, asks: seq<Ask>, s: Slot, addr: Address)
    ensures Read(AddAsks(l, asks), s, addr) == Read(l, s, addr)
  {
    if asks != [] {
      var init, a := asks[..|asks| - 1], asks[|asks| - 1];
      AddAsksRead(l, init, s, addr);
      AddAskRead(AddAsks(l, init), a, s, addr);
    }
  }

  lemma AddAskRead(l: List, a: Ask, s: Slot, addr: Address)
    ensures Read(AddAsk(l, a), s, addr) == Read(l, s, addr)
  {
    var es, fs := l.entries, AddAsk(l, a).entries;
    if Find(es, s) < |es| {
      FindKept(es, fs, s);
    } else {
      assert forall i :: 0 <= i < |es| ==> fs[i].slot == es[i].slot;
      if Find(fs, s) < |fs| { assert Find(fs, s) == |es|; }
    }
  }

  lemma UpdatedRead(l: List, slot: Slot, addr: Address, v: int, s: Slot, at: Address)
    ensures Read(l.(entries := Updated(l.entries, slot, addr, v)), s, at) ==
            if SameSlot(slot, s) && addr == at && Find(l.entries, s) < |l.entries| then Some(v) else Read(l, s, at)
  {
    var es, fs := l.entries, Updated(l.entries, slot, addr, v);
    if Find(es, s) < |es| {
      FindKept(es, fs, s);
    } else {
      assert forall i :: 0 <= i < |es| ==> fs[i].slot == es[i].slot;
    }
  }

  lemma InvalidatedRead(l: List, host: string, check: HostCheck, params: Option<Params>, addr: Address, s: Slot,
                        at: Address)
    ensures Read(l.(entries := Invalidated(l.entries, host, check, params, addr)), s, at) ==
            if Concerns(s, host, check, params) && addr == at then None else Read(l, s, at)
  {
    var es, fs := l.entries, Invalidated(l.entries, host, check, params, addr);
    if Find(es, s) < |es| {
      FindKept(es, fs, s);
    } else {
      assert forall i :: 0 <= i < |es| ==> fs[i].slot == es[i].slot;
    }
  }

  /** Whoever asked for a slot, and under whatever equal form, reads the newest result reported for it:
      sharing the entry is invisible. */
  lemma {:induction false} SharedReadsAreOwnReads(ops: seq<Op>, s: Slot, addr: Address)
    ensures Read(Run(ops).list, s, addr) == Reported(ops, s, addr)
  {
    if ops != [] {
      var before, op := ops[..|ops| - 1], ops[|ops| - 1];
      SharedReadsAreOwnReads(before, s, addr);
      var st := Run(before);
      match op {
        case Add(g) => if !st.guard { AddAsksRead(st.list, Asks(g), s, addr); }
        case Update(slot, a, v) =>
          UpdatedRead(st.list, slot, a, v, s, addr);
          OneEntryPerSlot(before);
          FoundIffAsked(st.list.entries, Asked(before), s);
        case Invalidate(host, check, params, a) => InvalidatedRead(st.list, host, check, params, a, s, addr);
        case SetGuard(b) =>
      }
    }
  }

  // ----- the secondary index -----

  /** Each entry has exactly one reference, filed under its own key without the remote check. */
  predicate RefsMatch(l: List)
  {
    |l.refs| == |l.entries| &&
    forall i :: 0 <= i < |l.refs| ==>
      l.refs[i] == Ref(l.entries[i].slot.host, Erase(l.entries[i].slot.check), i)
  }

  lemma {:induction false} AddAsksRefs(l: List, asks: seq<Ask>)
    requires RefsMatch(l)
    ensures RefsMatch(AddAsks(l, asks))
  {
    if asks != [] {
      AddAsksRefs(l, asks[..|asks| - 1]);
    }
  }

  lemma {:induction false} RefsAlwaysMatch(ops: seq<Op>)
    ensures RefsMatch(Run(ops).list)
  {
    if ops != [] {
      var before := ops[..|ops| - 1];
      RefsAlwaysMatch(before);
      match ops[|ops| - 1] {
        case Add(g) => AddAsksRefs(Run(before).list, Asks(g));
        case _ =>
      }
    }
  }

  /** The iterators a lookup in the secondary index visits. */
  function Lookup(refs: seq<Ref>, host: string, check: HostCheck): (r: seq<nat>)
  {
    if refs == [] then []
    else
      var last := refs[|refs| - 1];
      Lookup(refs[..|refs| - 1], host, check) +
      (if last.host == host && SameCheck(last.check, check) then [last.at] else [])
  }

  /** The full scan: primary entries whose key matches once both remote checks are erased. */
  function Scan(es: seq<Entry>, host: string, check: HostCheck): (r: seq<nat>)
  {
    if es == [] then []
    else
      var e := es[|es| - 1];
      Scan(es[..|es| - 1], host, check) +
      (if e.slot.host == host && SameCheck(Erase(e.slot.check), Erase(check)) then [|es| - 1] else [])
  }

  lemma {:induction false} LookupIsScan(l: List, host: string, check: HostCheck)
    requires RefsMatch(l)
    ensures Lookup(l.refs, host, check) == if check.remoteCheck == "" then Scan(l.entries, host, check) else []
    decreases |l.refs|
  {
    if l.refs != [] {
      var n := |l.refs| - 1;
      LookupIsScan(List(l.entries[..n], l.refs[..n]), host, check);
    }
  }

  /** In every reachable list, a lookup with the remote check erased finds exactly what a full scan with the
      same erasure finds, and a lookup that names a remote check finds nothing. */
  lemma SecondaryIndexAgrees(ops: seq<Op>, host: string, check: HostCheck)
    ensures var l := Run(ops).list;
            && Lookup(l.refs, host, Erase(check)) == Scan(l.entries, host, check)
            && (check.remoteCheck != "" ==> Lookup(l.refs, host, check) == [])
  {
    RefsAlwaysMatch(ops);
    LookupIsScan(Run(ops).list, host, Erase(check));
    LookupIsScan(Run(ops).list, host, check);
    assert Erase(Erase(check)) == Erase(check);
    ScanErased(Run(ops).list.entries, host, check);
  }

  lemma {:induction false} ScanErased(es: seq<Entry>, host: string, check: HostCheck)
    ensures Scan(es, host, Erase(check)) == Scan(es, host, check)
  {
    if es != [] { ScanErased(es[..|es| - 1], host, check); }
  }

  /** Spelled out: a lookup visits exactly the places whose entry has the host and, whatever its remote check and DNS
      type, the other compared fields of the query, and none if the query names a remote check. */
  lemma SecondaryVisits(ops: seq<Op>, host: string, check: HostCheck, i: nat)
    ensures var l := Run(ops).list;
            i in Lookup(l.refs, host, check) <==>
            && i < |l.entries| && check.remoteCheck == "" && l.entries[i].slot.host == host
            && var c := l.entries[i].slot.check;
              && c.checkType == check.checkType && c.port == check.port && c.dualstack == check.dualstack
              && c.checkInfo == check.checkInfo && c.source == check.source && c.tos == check.tos
              && c.fallback == check.fallback && c.flow == check.flow
  {
    RefsAlwaysMatch(ops);
    LookupPlaces(Run(ops).list, host, check, i);
  }

  lemma {:induction false} LookupPlaces(l: List, host: string, check: HostCheck, i: nat)
    requires RefsMatch(l)
    ensures i in Lookup(l.refs, host, check) <==>
            i < |l.entries| && l.entries[i].slot.host == host && SameCheck(Erase(l.entries[i].slot.check), check)
    decreases |l.refs|
  {
    if l.refs != [] {
      var n := |l.refs| - 1;
      LookupPlaces(List(l.entries[..n], l.refs[..n]), host, check, i);
    }
  }

  // ----- the guard -----

  function Slots(es: seq<Entry>): (r: seq<Slot>)
    ensures |r| == |es| && forall i :: 0 <= i < |es| ==> r[i] == es[i].slot
  {
    seq(|es|, i requires 0 <= i < |es| => es[i].slot)
  }

  /** From the moment the guard is set until it is cleared, no operation changes the keys, the parameters or
      the stored iterators, so every position keeps denoting the same check. */
  lemma {:induction false} GuardFreezesKeys(ops: seq<Op>, more: seq<Op>)
    requires Run(ops).guard
    requires forall op :: op in more ==> op != SetGuard(false)
    ensures var s, t := Run(ops), Run(ops + more);
            t.guard && Slots(t.list.entries) == Slots(s.list.entries) && t.list.refs == s.list.refs
  {
    if more == [] {
      assert ops + more == ops;
    } else {
      var init, last := more[..|more| - 1], more[|more| - 1];
      assert last in more && forall op :: op in init ==> op in more;
      GuardFreezesKeys(ops, init);
      assert (ops + more)[..|ops + more| - 1] == ops + init;
      assert Slots(Run(ops + more).list.entries) == Slots(Run(ops + init).list.entries);
    }
  }

  // ----- the shared timeout -----

  const DAY_IN_MS: int := 86400000

  /** The delay to the next check of a key: the smallest time to live among its parameter sets, at most a day. */
  function Delay(es: seq<Entry>, host: string, check: HostCheck): int
  {
    if es == [] then DAY_IN_MS
    else
      var d, s := Delay(es[..|es| - 1], host, check), es[|es| - 1].slot;
      if ForKey(s, host, check) && s.params.ttl < d then s.params.ttl else d
  }

  /** What the loop computes.  The clock is read once at the start and again at each entry: clock[i + 1] is the
      reading at entry i. */
  function CheckTimeout(es: seq<Entry>, host: string, check: HostCheck, clock: seq<int>): int
    requires |clock| == |es| + 1
    decreases |es|
  {
    if es == [] then clock[0] + DAY_IN_MS
    else
      var n := |es|;
      var t, s := CheckTimeout(es[..n - 1], host, check, clock[..n]), es[n - 1].slot;
      if ForKey(s, host, check) && clock[n] + s.params.ttl < t then clock[n] + s.params.ttl else t
  }

  predicate NeverBack(clock: seq<int>)
  {
    forall i, j :: 0 <= i < j < |clock| ==> clock[i] <= clock[j]
  }

  lemma {:induction false} TimeoutIsDelayed(es: seq<Entry>, host: string, check: HostCheck, clock: seq<int>)
    requires |clock| == |es| + 1 && NeverBack(clock)
    ensures var d := Delay(es, host, check);
            clock[0] + d <= CheckTimeout(es, host, check, clock) <= clock[|es|] + d
    decreases |es|
  {
    if es != [] {
      var n := |es|;
      TimeoutIsDelayed(es[..n - 1], host, check, clock[..n]);
      assert clock[0] <= clock[n - 1] <= clock[n] || n == 1;
    }
  }

  /** What was asked for, without who asked. */
  function AskedSlots(asks: seq<Ask>): (r: seq<Slot>)
    ensures |r| == |asks|
    ensures forall i :: 0 <= i < |asks| ==> r[i] == asks[i].slot
  {
    seq(|asks|, i requires 0 <= i < |asks| => asks[i].slot)
  }

  /** d is no more than a day or any slot's time to live, and is one of them. */
  predicate Soonest(slots: seq<Slot>, host: string, check: HostCheck, d: int)
  {
    && d <= DAY_IN_MS
    && (forall i :: 0 <= i < |slots| && ForKey(slots[i], host, check) ==> d <= slots[i].params.ttl)
    && (d == DAY_IN_MS || exists i :: 0 <= i < |slots| && ForKey(slots[i], host, check) && d == slots[i].params.ttl)
  }

  lemma {:induction false} DelayIsSoonest(es: seq<Entry>, host: string, check: HostCheck)
    ensures Soonest(Slots(es), host, check, Delay(es, host, check))
  {
    if es != [] {
      var p := es[..|es| - 1];
      DelayIsSoonest(p, host, check);
      assert Slots(es) == Slots(p) + [es[|es| - 1].slot];
    }
  }

  /** An entry stems from an ask. */
  lemma AskOfEntry(es: seq<Entry>, asks: seq<Ask>, i: nat) returns (k: nat)
    requires Represents(es, asks) && i < |es|
    ensures k < |asks| && asks[k].slot == es[i].slot
  {
    assert HasItsAskers(es[i], asks);
    k :| 0 <= k < |asks| && asks[k].slot == es[i].slot;
  }

  /** An ask has its entry. */
  lemma EntryOfAsk(es: seq<Entry>, asks: seq<Ask>, k: nat) returns (i: nat)
    requires Represents(es, asks) && k < |asks|
    ensures i < |es| && SameSlot(es[i].slot, asks[k].slot)
  {
    i := Find(es, asks[k].slot);
  }

  lemma DelayWithinAsk(es: seq<Entry>, asks: seq<Ask>, k: nat, host: string, check: HostCheck)
    requires Represents(es, asks) && k < |asks| && ForKey(asks[k].slot, host, check)
    ensures Delay(es, host, check) <= asks[k].slot.params.ttl
  {
    DelayIsSoonest(es, host, check);
    var i := EntryOfAsk(es, asks, k);
    assert ForKey(Slots(es)[i], host, check);
  }

  lemma DelayOfSomeAsk(es: seq<Entry>, asks: seq<Ask>, host: string, check: HostCheck) returns (k: nat)
    requires Represents(es, asks) && Delay(es, host, check) != DAY_IN_MS
    ensures k < |asks| && ForKey(asks[k].slot, host, check) && Delay(es, host, check) == asks[k].slot.params.ttl
  {
    DelayIsSoonest(es, host, check);
    var i :| 0 <= i < |es| && ForKey(Slots(es)[i], host, check) && Delay(es, host, check) == Slots(es)[i].params.ttl;
    k := AskOfEntry(es, asks, i);
  }

  lemma DelayCapped(es: seq<Entry>, host: string, check: HostCheck)
    ensures Delay(es, host, check) <= DAY_IN_MS
  {
    DelayIsSoonest(es, host, check);
  }

  predicate WithinAll(asks: seq<Ask>, host: string, check: HostCheck, d: int)
  {
    forall k :: 0 <= k < |asks| && ForKey(asks[k].slot, host, check) ==> d <= asks[k].slot.params.ttl
  }

  lemma DelayWithinAll(es: seq<Entry>, asks: seq<Ask>, host: string, check: HostCheck)
    requires Represents(es, asks)
    ensures WithinAll(asks, host, check, Delay(es, host, check))
  {
    forall k | 0 <= k < |asks| && ForKey(asks[k].slot, host, check)
      ensures Delay(es, host, check) <= asks[k].slot.params.ttl
    {
      DelayWithinAsk(es, asks, k, host, check);
    }
  }

  lemma SoonestOf(asks: seq<Ask>, host: string, check: HostCheck, d: int, k: nat)
    requires d <= DAY_IN_MS && WithinAll(asks, host, check, d)
    requires d == DAY_IN_MS || (k < |asks| && ForKey(asks[k].slot, host, check) && d == asks[k].slot.params.ttl)
    ensures Soonest(AskedSlots(asks), host, check, d)
  {
    var slots := AskedSlots(asks);
    assert d != DAY_IN_MS ==> ForKey(slots[k], host, check);
  }

  lemma RepresentedDelay(es: seq<Entry>, asks: seq<Ask>, host: string, check: HostCheck)
    requires Represents(es, asks)
    ensures Soonest(AskedSlots(asks), host, check, Delay(es, host, check))
  {
    DelayCapped(es, host, check);
    DelayWithinAll(es, asks, host, check);
    var k := 0;
    if Delay(es, host, check) != DAY_IN_MS { k := DelayOfSomeAsk(es, asks, host, check); }
    SoonestOf(asks, host, check, Delay(es, host, check), k);
  }

  /** No group waits past its own time to live: the delay is a day or the shortest time to live that was asked for,
      whichever is less, and the shared timeout is that much after a moment during the call. */
  lemma SharedTimeout(ops: seq<Op>, host: string, check: HostCheck, clock: seq<int>)
    requires |clock| == |Run(ops).list.entries| + 1 && NeverBack(clock)
    ensures var es := Run(ops).list.entries;
            var d := Delay(es, host, check);
            && Soonest(AskedSlots(Asked(ops)), host, check, d)
            && clock[0] + d <= CheckTimeout(es, host, check, clock) <= clock[|es|] + d
  {
    OneEntryPerSlot(ops);
    RepresentedDelay(Run(ops).list.entries, Asked(ops), host, check);
    TimeoutIsDelayed(Run(ops).list.entries, host, check, clock);
  }

  lemma AskedDelay(ops: seq<Op>, host: string, check: HostCheck)
    ensures Soonest(AskedSlots(Asked(ops)), host, check, Delay(Run(ops).list.entries, host, check))
  {
    OneEntryPerSlot(ops);
    RepresentedDelay(Run(ops).list.entries, Asked(ops), host, check);
  }

  predicate ShortestTtl(slots: seq<Slot>, host: string, check: HostCheck, ttl: nat)
  {
    && (exists k :: 0 <= k < |slots| && ForKey(slots[k], host, check) && slots[k].params.ttl == ttl)
    && (forall k :: 0 <= k < |slots| && ForKey(slots[k], host, check) ==> ttl <= slots[k].params.ttl)
  }

  /** The delay is exactly the shortest time to live precisely when that is at most a day. */
  lemma DelayIsShortestIff(ops: seq<Op>, host: string, check: HostCheck, ttl: nat)
    requires ShortestTtl(AskedSlots(Asked(ops)), host, check, ttl)
    ensures Delay(Run(ops).list.entries, host, check) == ttl <==> ttl <= 86400000
  {
    AskedDelay(ops, host, check);
  }

  lemma SoonestShrinks(a: seq<Slot>, b: seq<Slot>, host: string, check: HostCheck, d: int, e: int)
    requires |a| <= |b| && forall k :: 0 <= k < |a| ==> b[k] == a[k]
    requires Soonest(a, host, check, d) && Soonest(b, host, check, e)
    ensures e <= d
  {
    if d != DAY_IN_MS {
      var k :| 0 <= k < |a| && ForKey(a[k], host, check) && d == a[k].params.ttl;
      assert ForKey(b[k], host, check);
    }
  }

  /** Nothing that happens to the list makes a shared timeout later. */
  lemma DelayNeverLonger(ops: seq<Op>, op: Op, host: string, check: HostCheck)
    ensures Delay(Run(ops + [op]).list.entries, host, check) <= Delay(Run(ops).list.entries, host, check)
  {
    AskedDelay(ops, host, check);
    AskedDelay(ops + [op], host, check);
    AskedGrows(ops, op);
    SoonestShrinks(AskedSlots(Asked(ops)), AskedSlots(Asked(ops + [op])), host, check,
                   Delay(Run(ops).list.entries, host, check), Delay(Run(ops + [op]).list.entries, host, check));
  }

  lemma AskedGrows(ops: seq<Op>, op: Op)
    ensures Asked(ops) <= Asked(ops + [op])
  {
    assert (ops + [op])[..|ops|] == ops;
  }

  // ----- what each operation does to each entry -----

  /** The entry is for the host, under a host check that differs from the given one at most in plugin and type of
      remote check. */
  predicate KeyedBy(s: Slot, host: string, check: HostCheck)
  {
    s.host == host && s.check.(plugin := check.plugin, remoteCheckType := check.remoteCheckType) == check
  }

  /** An invalidation forgets its address in the entries of its host and host check, in those with its parameters if it
      names any, and changes nothing else. */
  lemma InvalidationForgets(ops: seq<Op>, host: string, check: HostCheck, params: Option<Params>, addr: Address, i: nat)
    requires i < |Run(ops).list.entries|
    ensures var l, r := Run(ops).list, Run(ops + [Invalidate(host, check, params, addr)]).list;
            && r.refs == l.refs && |r.entries| == |l.entries|
            && var e := l.entries[i];
               r.entries[i] == if KeyedBy(e.slot, host, check) && (params == None || params == Some(e.slot.params))
                               then Entry(e.slot, e.groups, e.results - {addr}) else e
  {
    var op := Invalidate(host, check, params, addr);
    assert (ops + [op])[..|ops|] == ops;
    assert Run(ops + [op]).list.entries == Invalidated(Run(ops).list.entries, host, check, params, addr);
  }

  /** A result goes into the entries of its host, host check and parameters, at its address, and nowhere else. */
  lemma ResultGoesTo(ops: seq<Op>, slot: Slot, addr: Address, v: int, i: nat)
    requires i < |Run(ops).list.entries|
    ensures var l, r := Run(ops).list, Run(ops + [Update(slot, addr, v)]).list;
            && r.refs == l.refs && |r.entries| == |l.entries|
            && var e := l.entries[i];
               r.entries[i] == if KeyedBy(e.slot, slot.host, slot.check) && e.slot.params == slot.params
                               then Entry(e.slot, e.groups, e.results[addr := v]) else e
  {
    var op := Update(slot, addr, v);
    assert (ops + [op])[..|ops|] == ops;
    assert Run(ops + [op]).list.entries == Updated(Run(ops).list.entries, slot, addr, v);
  }

  /** t is no later than a day after the first reading, nor than the time to live of any entry of the key after the
      reading made at it, and is one of these. */
  predicate EarliestOf(es: seq<Entry>, host: string, check: HostCheck, clock: seq<int>, t: int)
    requires |clock| == |es| + 1
  {
    && t <= clock[0] + 86400000
    && (forall i :: 0 <= i < |es| && KeyedBy(es[i].slot, host, check) ==> t <= clock[i + 1] + es[i].slot.params.ttl)
    && (t == clock[0] + 86400000 ||
        exists i :: 0 <= i < |es| && KeyedBy(es[i].slot, host, check) && t == clock[i + 1] + es[i].slot.params.ttl)
  }

  /** The timeout of a key, whatever the list and whatever the clock does. */
  lemma {:induction false} TimeoutIsEarliest(es: seq<Entry>, host: string, check: HostCheck, clock: seq<int>)
    requires |clock| == |es| + 1
    ensures EarliestOf(es, host, check, clock, CheckTimeout(es, host, check, clock))
    decreases |es|
  {
    if es != [] {
      var n := |es| - 1;
      TimeoutIsEarliest(es[..n], host, check, clock[..n + 1]);
      OneMoreEntry(es, host, check, clock, CheckTimeout(es[..n], host, check, clock[..n + 1]));
    }
  }

  lemma OneMoreEntry(es: seq<Entry>, host: string, check: HostCheck, clock: seq<int>, t: int)
    requires |clock| == |es| + 1 && es != []
    requires EarliestOf(es[..|es| - 1], host, check, clock[..|es|], t)
    ensures var n := |es| - 1;
            var mine := clock[n + 1] + es[n].slot.params.ttl;
            EarliestOf(es, host, check, clock, if KeyedBy(es[n].slot, host, check) && mine < t then mine else t)
  {
    var n := |es| - 1;
    var fs, c := es[..n], clock[..n + 1];
    assert forall i :: 0 <= i < n ==> fs[i] == es[i] && c[i + 1] == clock[i + 1];
    if t != clock[0] + 86400000 {
      var i :| 0 <= i < n && KeyedBy(fs[i].slot, host, check) && t == c[i + 1] + fs[i].slot.params.ttl;
      assert KeyedBy(es[i].slot, host, check) && t == clock[i + 1] + es[i].slot.params.ttl;
    }
  }

  /** The guard is off at first and is then what it was last set to. */
  lemma {:induction false} GuardIsAsSet(ops: seq<Op>, b: bool, more: seq<Op>)
    requires forall op :: op in more ==> !op.SetGuard?
    ensures Run(ops + [SetGuard(b)] + more).guard == b
    ensures !Run(more).guard
  {
    var all := ops + [SetGuard(b)];
    if more == [] {
      assert all + more == all && all[..|ops|] == ops;
    } else {
      var init, last := more[..|more| - 1], more[|more| - 1];
      assert last in more && forall op :: op in init ==> op in more;
      GuardIsAsSet(ops, b, init);
      LastKeepsGuard(all, init, last);
      LastKeepsGuard([], init, last);
      assert more == init + [last] && [] + init == init && [] + (init + [last]) == more;
    }
  }

  lemma LastKeepsGuard(before: seq<Op>, init: seq<Op>, last: Op)
    requires !last.SetGuard?
    ensures Run(before + (init + [last])).guard == Run(before + init).guard
  {
    assert (before + (init + [last]))[..|before + init|] == before + init;
  }
}
