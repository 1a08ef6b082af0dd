/** The check list object, proved against the specification in CheckList. */
module CheckListStore {
  import opened Basics
  import opened CheckList

  /** The results a reader collects from the given positions. */
  function Collected(es: seq<Entry>, at: seq<nat>, addr: Address): seq<(Params, int)>
    requires forall k :: 0 <= k < |at| ==> at[k] < |es|
  {
    if at == [] then []
    else
      var e := es[at[|at| - 1]];
      Collected(es, at[..|at| - 1], addr) + (if addr in e.results then [(e.slot.params, e.results[addr])] else [])
  }

  lemma LookupStep(refs: seq<Ref>, k: nat, host: string, check: HostCheck)
    requires k < |refs|
    ensures Lookup(refs[..k + 1], host, check) ==
            Lookup(refs[..k], host, check) +
            (if refs[k].host == host && SameCheck(refs[k].check, check) then [refs[k].at] else [])
  {
    assert refs[..k + 1][..k] == refs[..k];
  }

  lemma CollectedStep(es: seq<Entry>, at: seq<nat>, i: nat, addr: Address)
    requires i < |es| && forall k :: 0 <= k < |at| ==> at[k] < |es|
    ensures Collected(es, at + [i], addr) ==
            Collected(es, at, addr) + (if addr in es[i].results then [(es[i].slot.params, es[i].results[addr])] else [])
  {
    assert (at + [i])[..|at|] == at;
  }

  /** A reader collects from the given places exactly the parameters and results of the entries that have a result at
      the address. */
  lemma {:induction false} CollectedIs(es: seq<Entry>, at: seq<nat>, addr: Address, p: Params, v: int)
    requires forall k :: 0 <= k < |at| ==> at[k] < |es|
    ensures (p, v) in Collected(es, at, addr) <==>
            exists k :: 0 <= k < |at| && addr in es[at[k]].results && es[at[k]].results[addr] == v
                        && es[at[k]].slot.params == p
  {
    if at != [] {
      var before, n := at[..|at| - 1], |at| - 1;
      CollectedIs(es, before, addr, p, v);
      assert forall k :: 0 <= k < n ==> before[k] == at[k];
    }
  }

  lemma AddAsksStep(l: List, asks: seq<Ask>, k: nat)
    requires k < |asks|
    ensures AddAsks(l, asks[..k + 1]) == AddAsk(AddAsks(l, asks[..k]), asks[k])
  {
    assert asks[..k + 1][..k] == asks[..k];
  }

  class CheckIndex {
    var entries: seq<Entry>
    var refs: seq<Ref>
    var guard: bool

    function View(): State
      reads this
    {
      State(List(entries, refs), guard)
    }

    constructor ()
      ensures View() == Run([])
    {
      entries, refs, guard := [], [], false;
    }

    method SetGuard(b: bool)
      modifies this`guard
      ensures View() == Apply(old(View()), CheckList.SetGuard(b))
    {
      guard := b;
    }

    /** Enter one host of a group: in the first entry with the same slot, or in a new one. */
    method AddOne(slot: Slot, name: string)
      modifies this`entries, this`refs
      ensures List(entries, refs) == AddAsk(old(View()).list, Ask(slot, name))
    {
      var found, i := false, 0;
      while i < |entries| && !found
        invariant 0 <= i <= |entries|
        invariant forall j :: 0 <= j < i ==> !SameSlot(entries[j].slot, slot)
        invariant found ==> i < |entries| && SameSlot(entries[i].slot, slot)
        decreases |entries| - i, !found
      {
        if SameSlot(entries[i].slot, slot) {
          found := true;
        } else {
          i := i + 1;
        }
      }
      assert i == Find(entries, slot);
      if found {
        entries := entries[i := entries[i].(groups := entries[i].groups + [name])];
      } else {
        refs := refs + [Ref(slot.host, Erase(slot.check), |entries|)];
        entries := entries + [Entry(slot, [name], map[])];
      }
    }

    /** Fold a host group into the list. */
    method AddHostGroup(g: Group) returns (n: nat)
      modifies this`entries, this`refs
      ensures View() == Apply(old(View()), Add(g))
      ensures n == if guard then 0 else |Asks(g)|
    {
      if guard {
        return 0;
      }
      if g.check.checkType >= INVALID_CHECK_TYPE {
        return 0;
      }
      var params := ParamsOf(g);
      ghost var asks := Asks(g);
      var k := 0;
      while k < |g.hosts|
        invariant 0 <= k <= |g.hosts|
        invariant List(entries, refs) == AddAsks(old(View()).list, asks[..k])
        invariant guard == old(guard)
      {
        var slot := Slot(g.hosts[k], g.check, params);
        assert asks[k] == Ask(slot, g.name);
        AddAsksStep(old(View()).list, asks, k);
        AddOne(slot, g.name);
        k := k + 1;
      }
      assert asks[..k] == asks;
      return |g.hosts|;
    }

    /** Record a result in the entry of a slot. */
    method UpdateCheck(slot: Slot, addr: Address, v: int) returns (found: bool)
      modifies this`entries
      ensures View() == Apply(old(View()), Update(slot, addr, v))
      ensures found <==> exists i :: 0 <= i < |old(entries)| && SameSlot(old(entries)[i].slot, slot)
    {
      found := false;
      var i := 0;
      ghost var was := entries;
      while i < |entries|
        invariant 0 <= i <= |entries| == |was|
        invariant found <==> exists j :: 0 <= j < i && SameSlot(was[j].slot, slot)
        invariant forall j :: 0 <= j < i ==> entries[j] == Updated(was, slot, addr, v)[j]
        invariant forall j :: i <= j < |was| ==> entries[j] == was[j]
      {
        if SameSlot(entries[i].slot, slot) {
          entries := entries[i := entries[i].(results := entries[i].results[addr := v])];
          found := true;
        }
        i := i + 1;
      }
      assert entries == Updated(was, slot, addr, v);
    }

    /** Forget the result at an address, in one entry of a key or in all of them. */
    method InvalidateCheck(host: string, check: HostCheck, params: Option<Params>, addr: Address)
      modifies this`entries
      ensures View() == Apply(old(View()), Invalidate(host, check, params, addr))
    {
      var i := 0;
      ghost var was := entries;
      while i < |entries|
        invariant 0 <= i <= |entries| == |was|
        invariant forall j :: 0 <= j < i ==> entries[j] == Invalidated(was, host, check, params, addr)[j]
        invariant forall j :: i <= j < |was| ==> entries[j] == was[j]
      {
        if Concerns(entries[i].slot, host, check, params) {
          entries := entries[i := entries[i].(results := entries[i].results - {addr})];
        }
        i := i + 1;
      }
      assert entries == Invalidated(was, host, check, params, addr);
    }

    /** Read one result back. */
    method GetCheckResult(slot: Slot, addr: Address) returns (r: Option<int>)
      ensures Unique(entries) ==> r == Read(View().list, slot, addr)
      ensures r == None <==>
              forall i :: 0 <= i < |entries| && SameSlot(entries[i].slot, slot) ==> addr !in entries[i].results
    {
      var i := 0;
      while i < |entries|
        invariant 0 <= i <= |entries|
        invariant forall j :: 0 <= j < i && SameSlot(entries[j].slot, slot) ==> addr !in entries[j].results
      {
        if SameSlot(entries[i].slot, slot) && addr in entries[i].results {
          assert Unique(entries) ==> Find(entries, slot) == i by {
            if Unique(entries) { FindIs(entries, slot, i); }
          }
          return Some(entries[i].results[addr]);
        }
        i := i + 1;
      }
      return None;
    }

    /** Read the results of all checks that differ from the given one at most in their remote check. */
    method GetCheckResultsRemoteChecks(host: string, check: HostCheck, addr: Address) returns (r: seq<(Params, int)>)
      requires RefsMatch(View().list)
      ensures check.remoteCheck != "" ==> r == []
      ensures check.remoteCheck == "" ==>
                && (forall k :: 0 <= k < |Scan(entries, host, check)| ==> Scan(entries, host, check)[k] < |entries|)
                && r == Collected(entries, Scan(entries, host, check), addr)
    {
      r := [];
      var k := 0;
      while k < |refs|
        invariant 0 <= k <= |refs|
        invariant forall j :: 0 <= j < |Lookup(refs[..k], host, check)| ==>
                    Lookup(refs[..k], host, check)[j] < |entries|
        invariant r == Collected(entries, Lookup(refs[..k], host, check), addr)
      {
        LookupStep(refs, k, host, check);
        if refs[k].host == host && SameCheck(refs[k].check, check) {
          var i := refs[k].at;
          CollectedStep(entries, Lookup(refs[..k], host, check), i, addr);
          if addr in entries[i].results {
            r := r + [(entries[i].slot.params, entries[i].results[addr])];
          }
        } else {
          assert Lookup(refs[..k + 1], host, check) == Lookup(refs[..k], host, check);
        }
        k := k + 1;
      }
      assert refs[..k] == refs;
      LookupIsScan(View().list, host, check);
    }

    /** When the check of a key is due next; `clock` are the readings of the clock during the call. */
    method GetCheckTimeout(host: string, check: HostCheck, clock: seq<int>) returns (t: int)
      requires |clock| == |entries| + 1
      ensures t == CheckTimeout(entries, host, check, clock)
    {
      t := clock[0] + DAY_IN_MS;
      var i := 0;
      while i < |entries|
        invariant 0 <= i <= |entries|
        invariant t == CheckTimeout(entries[..i], host, check, clock[..i + 1])
      {
        assert entries[..i + 1][..i] == entries[..i] && clock[..i + 2][..i + 1] == clock[..i + 1];
        if ForKey(entries[i].slot, host, check) && clock[i + 1] + entries[i].slot.params.ttl < t {
          t := clock[i + 1] + entries[i].slot.params.ttl;
        }
        i := i + 1;
      }
      assert entries[..i] == entries && clock[..i + 1] == clock;
    }
  }
}
