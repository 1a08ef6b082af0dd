/**
 Carrying check results over a configuration reload.

 A reload builds a state with the new checks and no results, copies what the running state knows into
 it, swaps the two, and, when nobody uses the old state any more, copies once more so that results
 which arrived in the meantime are not lost.
 */
module Reload {
  import opened Basics

  datatype Flow = DnsHealth | RemoteHost | RemoteHostGroup

  /** What the DNS cache is keyed by, apart from the address family. */
  datatype Lookup = Lookup(host: string, dnsType: nat, remoteCheck: string)

  /** A check as the check list keys it: the rest of its host check is `kind`. */
  datatype Check = Check(lookup: Lookup, kind: string, flow: Flow, v4: bool, v6: bool, params: nat)

  datatype Result = Result(value: int, checkTime: int, active: bool)

  /** A DNS cache entry: the addresses found and when. */
  datatype Found = Found(addresses: set<Address>, time: int)

  type Dns = map<(Lookup, bool), Found>

  /** Addresses configured by hand, by host and family. */
  type Statics = map<(string, bool), set<Address>>

  type Results = map<(Check, Address), Result>

  datatype Snapshot = Snapshot(checks: set<Check>, results: Results, dns: Dns, statics: Statics)

  /** The number of the DNS type of addresses configured by hand. */
  const STATIC_DNS: nat := 1

  function Entry(dns: Dns, l: Lookup, ipv6: bool): Found
  {
    if (l, ipv6) in dns then dns[(l, ipv6)] else Found({}, 0)
  }

  function Listed(dns: Dns, l: Lookup, ipv6: bool): set<Address> { Entry(dns, l, ipv6).addresses }

  function Get(rs: Results, c: Check, a: Address): Option<Result>
  {
    if (c, a) in rs then Some(rs[(c, a)]) else None
  }

  function OfFamily(s: set<Address>, ipv6: bool): set<Address>
  {
    set a | a in s && (if ipv6 then a.V6? else a.V4?)
  }

  /** All addresses of one family that are listed for a name, under either key. */
  function Family(dns: Dns, l: Lookup, ipv6: bool): set<Address>
  {
    OfFamily(Listed(dns, l, false) + Listed(dns, l, true), ipv6)
  }

  function SetOf(cs: seq<Check>): set<Check> { set c | c in cs }

  predicate Wants(c: Check, a: Address) { (c.v4 && a.V4?) || (c.v6 && a.V6?) }

  /** Same host and host check, perhaps other parameters. */
  predicate SameKey(c: Check, d: Check) { c.(params := 0) == d.(params := 0) }

  /** The addresses a reload looks at for a check of the old state. */
  function Addresses(src: Snapshot, c: Check): set<Address>
  {
    match c.flow
    case DnsHealth => Listed(src.dns, c.lookup, false) + Listed(src.dns, c.lookup, true)
    case RemoteHost => set k | k in src.results && SameKey(k.0, c) && Wants(c, k.1) :: k.1
    case RemoteHostGroup => {}
  }

  /** The old state's result for a check and address that a reload looks at. */
  function Offered(src: Snapshot, c: Check, a: Address): Option<Result>
  {
    if c in src.checks && a in Addresses(src, c) then Get(src.results, c, a) else None
  }

  /** The result after the copy: an offered one replaces none or an older one, and is no longer in progress. */
  function Carried(mine: Option<Result>, offered: Option<Result>): Option<Result>
  {
    if offered.Some? && (mine.None? || mine.value.checkTime < offered.value.checkTime)
    then Some(offered.value.(active := false))
    else mine
  }

  predicate UsedForDns(checks: set<Check>, l: Lookup)
  {
    exists c :: c in checks && c.flow == DnsHealth && c.lookup == l
  }

  function CarriedDns(mine: Found, src: Snapshot, l: Lookup, ipv6: bool): Found
  {
    if UsedForDns(src.checks, l) && Family(src.dns, l, ipv6) != {}
    then Found(Family(src.dns, l, ipv6), Entry(src.dns, l, ipv6).time)
    else mine
  }

  /** r is dst after copying from src. */
  ghost predicate IsRestored(dst: Snapshot, src: Snapshot, r: Snapshot)
  {
    && r.checks == dst.checks
    && (forall c, a :: Get(r.results, c, a) ==
          if c in dst.checks then Carried(Get(dst.results, c, a), Offered(src, c, a)) else Get(dst.results, c, a))
    && (forall l, f :: Entry(r.dns, l, f) == CarriedDns(Entry(dst.dns, l, f), src, l, f))
    && r.statics == src.statics
  }

  // ----- sequences of reloads -----

  /** A state that was just built from a configuration. */
  function Fresh(config: set<Check>): Snapshot { Snapshot(config, map[], map[], map[]) }

  /** One reload without new results: copy into the fresh state, swap, copy again. */
  ghost predicate IsReload(cur: Snapshot, config: set<Check>, next: Snapshot)
  {
    exists once :: IsRestored(Fresh(config), cur, once) && IsRestored(once, cur, next)
  }

  ghost predicate IsReloadRun(states: seq<Snapshot>, configs: seq<set<Check>>)
  {
    |states| == |configs| + 1 && forall i :: 0 <= i < |configs| ==> IsReload(states[i], configs[i], states[i + 1])
  }

  function Settled(r: Option<Result>): Option<Result>
  {
    if r.None? then None else Some(r.value.(active := false))
  }

  /** The second copy changes nothing when no result arrived in between. */
  lemma CopyTwice(dst: Snapshot, src: Snapshot, once: Snapshot, twice: Snapshot, c: Check, a: Address)
    requires IsRestored(dst, src, once) && IsRestored(once, src, twice)
    ensures Get(twice.results, c, a) == Get(once.results, c, a)
    ensures Entry(twice.dns, c.lookup, false) == Entry(once.dns, c.lookup, false)
    ensures Entry(twice.dns, c.lookup, true) == Entry(once.dns, c.lookup, true)
    ensures twice.statics == once.statics
  {
  }

  /** What one reload keeps. */
  lemma ReloadKeeps(cur: Snapshot, config: set<Check>, next: Snapshot, c: Check, a: Address)
    requires IsReload(cur, config, next)
    ensures next.checks == config
    ensures Get(next.results, c, a) == if c in config then Settled(Offered(cur, c, a)) else None
    ensures c in cur.checks && c.flow == DnsHealth ==>
              (a in Addresses(next, c) <==> a in Addresses(cur, c) && !a.Unset?)
  {
    var once :| IsRestored(Fresh(config), cur, once) && IsRestored(once, cur, next);
    CopyTwice(Fresh(config), cur, once, next, c, a);
    if c in cur.checks && c.flow == DnsHealth {
      DnsCarried(cur, once, config, c);
    }
  }

  lemma DnsCarried(cur: Snapshot, once: Snapshot, config: set<Check>, c: Check)
    requires IsRestored(Fresh(config), cur, once)
    requires c in cur.checks && c.flow == DnsHealth
    ensures Listed(once.dns, c.lookup, false) == OfFamily(Addresses(cur, c), false)
    ensures Listed(once.dns, c.lookup, true) == OfFamily(Addresses(cur, c), true)
  {
    assert UsedForDns(cur.checks, c.lookup);
  }

  predicate InAll(configs: seq<set<Check>>, c: Check)
  {
    forall i :: 0 <= i < |configs| ==> c in configs[i]
  }

  /** Does the reload procedure look at this address for this check, n times in a row? */
  predicate LookedAt(s: Snapshot, c: Check, a: Address, n: nat)
  {
    match c.flow
    case DnsHealth => n == 0 || (a in Addresses(s, c) && (n == 1 || !a.Unset?))
    case RemoteHost => n == 0 || Wants(c, a)
    case RemoteHostGroup => n == 0
  }

  lemma {:induction false} FinalResult(states: seq<Snapshot>, configs: seq<set<Check>>, c: Check, a: Address)
    requires IsReloadRun(states, configs) && c in states[0].checks
    ensures Get(states[|configs|].results, c, a) ==
            if configs == [] then Get(states[0].results, c, a)
            else if InAll(configs, c) && LookedAt(states[0], c, a, |configs|) then Settled(Get(states[0].results, c, a))
            else None
    decreases |configs|
  {
    if configs != [] {
      ReloadKeeps(states[0], configs[0], states[1], c, a);
      if c in configs[0] {
        FinalResult(states[1..], configs[1..], c, a);
        assert InAll(configs, c) <==> InAll(configs[1..], c) by {
          if InAll(configs[1..], c) {
            forall i | 0 <= i < |configs| ensures c in configs[i] {
              if i > 0 { assert configs[1..][i - 1] == configs[i]; }
            }
          }
        }
        OfferedIffLookedAt(states[0], c, a);
      } else {
        assert !InAll(configs, c);
        NothingComesBack(states[1..], configs[1..], c, a);
      }
    }
  }

  lemma OfferedIffLookedAt(s: Snapshot, c: Check, a: Address)
    requires c in s.checks
    ensures Offered(s, c, a) == if LookedAt(s, c, a, 1) then Get(s.results, c, a) else None
  {
    if c.flow == RemoteHost && (c, a) in s.results && Wants(c, a) {
      assert SameKey((c, a).0, c) && a in Addresses(s, c);
    }
  }

  /** A result that is gone stays gone, whatever configurations follow. */
  lemma {:induction false} NothingComesBack(states: seq<Snapshot>, configs: seq<set<Check>>, c: Check, a: Address)
    requires IsReloadRun(states, configs) && Get(states[0].results, c, a) == None
    ensures Get(states[|configs|].results, c, a) == None
    decreases |configs|
  {
    if configs != [] {
      ReloadKeeps(states[0], configs[0], states[1], c, a);
      NothingComesBack(states[1..], configs[1..], c, a);
    }
  }

  /** Over any sequence of reloads without new results, a result survives exactly when its check is in every
      configuration and the reload procedure looks at its address; it then keeps its value and time. */
  lemma SurvivesIff(states: seq<Snapshot>, configs: seq<set<Check>>, c: Check, a: Address)
    requires IsReloadRun(states, configs) && configs != [] && c in states[0].checks
    ensures var last := states[|configs|];
            && ((c, a) in last.results <==>
                (c, a) in states[0].results && InAll(configs, c) && LookedAt(states[0], c, a, |configs|))
            && ((c, a) in last.results ==> last.results[(c, a)] == states[0].results[(c, a)].(active := false))
  {
    FinalResult(states, configs, c, a);
  }

  /** A state may have got results for its checks, each newer than what it had. */
  ghost predicate Evolves(s: Snapshot, t: Snapshot)
  {
    && t.checks == s.checks
    && forall c, a :: Get(s.results, c, a).Some? ==>
         Get(t.results, c, a).Some? && Get(s.results, c, a).value.checkTime <= Get(t.results, c, a).value.checkTime
  }

  function TimeOf(r: Option<Result>): Option<int> { if r.Some? then Some(r.value.checkTime) else None }

  /** A swap during which results arrive in both states.  For every check of the new configuration and every address the
      second copy looks at, the new state ends with the result of the newer check time, its own if they are equal;
      at other addresses it keeps its own; and in no case with one older than the first copy offered. */
  lemma SwapKeepsNewest(cur: Snapshot, config: set<Check>, once: Snapshot, mine: Snapshot, theirs: Snapshot,
                        last: Snapshot, c: Check, a: Address)
    requires IsRestored(Fresh(config), cur, once) && Evolves(once, mine) && Evolves(cur, theirs)
    requires IsRestored(mine, theirs, last) && c in config
    ensures var x, y, z := Get(mine.results, c, a), Offered(theirs, c, a), Get(last.results, c, a);
            && (y.None? ==> z == x)
            && (y.Some? ==> z.Some? && z.value.checkTime >= y.value.checkTime)
            && (x.Some? ==> z.Some? && z.value.checkTime >= x.value.checkTime)
            && (z.Some? ==> TimeOf(z) == TimeOf(x) || TimeOf(z) == TimeOf(y))
            && (z.Some? && x.Some? && y.Some? ==>
                  z.value.value == if x.value.checkTime < y.value.checkTime then y.value.value else x.value.value)
            && (Offered(cur, c, a).Some? ==>
                  z.Some? && z.value.checkTime >= Offered(cur, c, a).value.checkTime)
  {
    assert Get(once.results, c, a) == Carried(Get(Fresh(config).results, c, a), Offered(cur, c, a));
    assert Get(last.results, c, a) == Carried(Get(mine.results, c, a), Offered(theirs, c, a));
  }

  /** Spelled out for a check of the remote host flow: a result survives exactly when its check is in every
      configuration and wants the family of its address; one without a family never does. */
  lemma RemoteHostSurvivesIff(states: seq<Snapshot>, configs: seq<set<Check>>, c: Check, a: Address)
    requires IsReloadRun(states, configs) && configs != [] && c in states[0].checks && c.flow == RemoteHost
    ensures (c, a) in states[|configs|].results <==>
            && (c, a) in states[0].results && (forall i :: 0 <= i < |configs| ==> c in configs[i])
            && match a
               case V4(_) => c.v4
               case V6(_) => c.v6
               case Unset => false
  {
    FinalResult(states, configs, c, a);
  }

  /** For a check of the DNS flow: exactly when its check is in every configuration and its address was listed for the
      name, under either family, and has a family if it is to survive more than one reload. */
  lemma DnsSurvivesIff(states: seq<Snapshot>, configs: seq<set<Check>>, c: Check, a: Address)
    requires IsReloadRun(states, configs) && configs != [] && c in states[0].checks && c.flow == DnsHealth
    ensures (c, a) in states[|configs|].results <==>
            && (c, a) in states[0].results && (forall i :: 0 <= i < |configs| ==> c in configs[i])
            && (exists f: bool :: (c.lookup, f) in states[0].dns && a in states[0].dns[(c.lookup, f)].addresses)
            && (|configs| == 1 || a != Unset)
  {
    FinalResult(states, configs, c, a);
    var dns := states[0].dns;
    if a in Listed(dns, c.lookup, false) { assert (c.lookup, false) in dns; }
    if a in Listed(dns, c.lookup, true) { assert (c.lookup, true) in dns; }
  }

  /** A reload lists a name's addresses under the key of their own family, exactly those that were listed under either,
      with the time of that family's entry. */
  lemma ReloadSortsFamilies(cur: Snapshot, config: set<Check>, next: Snapshot, c: Check, a: Address)
    requires IsReload(cur, config, next) && c in cur.checks && c.flow == DnsHealth
    ensures var l := c.lookup;
            var was := Entry(cur.dns, l, false).addresses + Entry(cur.dns, l, true).addresses;
            && (a in Entry(next.dns, l, false).addresses <==> a.V4? && a in was)
            && (a in Entry(next.dns, l, true).addresses <==> a.V6? && a in was)
            && (a.V4? && a in was ==> Entry(next.dns, l, false).time == Entry(cur.dns, l, false).time)
            && (a.V6? && a in was ==> Entry(next.dns, l, true).time == Entry(cur.dns, l, true).time)
  {
    var once :| IsRestored(Fresh(config), cur, once) && IsRestored(once, cur, next);
    DnsCarried(cur, once, config, c);
    CopyTwice(Fresh(config), cur, once, next, c, a);
    assert UsedForDns(cur.checks, c.lookup);
    var l, empty := c.lookup, Fresh(config).dns;
    assert Entry(once.dns, l, false) == CarriedDns(Entry(empty, l, false), cur, l, false);
    assert Entry(once.dns, l, true) == CarriedDns(Entry(empty, l, true), cur, l, true);
  }

  /** A check of the remote host-group flow loses its results in the check list although it stays configured. */
  lemma RemoteGroupResultsDropped(states: seq<Snapshot>, configs: seq<set<Check>>, c: Check, a: Address)
    requires IsReloadRun(states, configs) && configs != [] && c in states[0].checks && c.flow == RemoteHostGroup
    ensures (c, a) !in states[|configs|].results
  {
    FinalResult(states, configs, c, a);
  }

  // ----- the state object -----

  /** Addresses added under a host's key; adding none does not make the key. */
  function WithStatic(t: Statics, host: string, ipv6: bool, s: set<Address>): Statics
  {
    if s == {} then t
    else t[(host, ipv6) := (if (host, ipv6) in t then t[(host, ipv6)] else {}) + s]
  }

  class CheckState {
    var checks: seq<Check>
    var results: Results
    var dns: Dns
    var statics: Statics

    function View(): Snapshot
      reads this
    {
      Snapshot(SetOf(checks), results, dns, statics)
    }

    constructor (config: seq<Check>)
      ensures View() == Fresh(SetOf(config))
    {
      checks, results, dns, statics := config, map[], map[], map[];
    }

    /** Store the addresses of each family that has any, with the time they were found.  If the name is configured by
        hand they are also entered as configured addresses, except the placeholder. */
    method UpdateReloadDnsEntry(l: Lookup, addresses: set<Address>, v4Time: int, v6Time: int)
      modifies this`dns, this`statics
      ensures forall m, f :: Entry(dns, m, f) ==
                if m == l && OfFamily(addresses, f) != {}
                then Found(OfFamily(addresses, f), if f then v6Time
                else v4Time)
                else old(Entry(dns, m, f))
      ensures l.dnsType != STATIC_DNS ==> statics == old(statics)
      ensures l.dnsType == STATIC_DNS ==>
                statics == WithStatic(WithStatic(old(statics), l.host, false, OfFamily(addresses, false) - {V4(0)}),
                                      l.host, true, OfFamily(addresses, true) - {V6(0)})
    {
      var v4 := OfFamily(addresses, false);
      if v4 != {} {
        dns := dns[(l, false) := Found(v4, v4Time)];
        if l.dnsType == STATIC_DNS {
          statics := WithStatic(statics, l.host, false, v4 - {V4(0)});
        }
      }
      var v6 := OfFamily(addresses, true);
      if v6 != {} {
        dns := dns[(l, true) := Found(v6, v6Time)];
        if l.dnsType == STATIC_DNS {
          statics := WithStatic(statics, l.host, true, v6 - {V6(0)});
        }
      }
    }

    /** Copy the results of one check at the given addresses. */
    method RestoreCheck(src: CheckState, c: Check, addresses: set<Address>)
      requires src != this
      modifies this`results
      ensures forall d, a :: Get(results, d, a) ==
                if d == c && a in addresses && c in checks
                then Carried(old(Get(results, d, a)), Get(src.results, c, a))
                else old(Get(results, d, a))
    {
      var todo := addresses;
      while todo != {}
        invariant todo <= addresses
        invariant forall d, a :: Get(results, d, a) ==
                    if d == c && a in addresses - todo && c in checks
                    then Carried(old(Get(results, d, a)), Get(src.results, c, a))
                    else old(Get(results, d, a))
      {
        var a :| a in todo;
        if (c, a) in src.results {
          var result := src.results[(c, a)];
          var tmp := if c in checks then Get(results, c, a) else None;
          if (tmp == None || tmp.value.checkTime < result.checkTime) && c in checks {
            results := results[(c, a) := result.(active := false)];
          }
        }
        todo := todo - {a};
      }
    }

    /** Copy results and resolved addresses from the state that is being replaced. */
    method RestoreRunningCheckState(src: CheckState)
      requires src != this
      modifies this`results, this`dns, this`statics
      ensures IsRestored(old(View()), src.View(), View())
    {
      ghost var dst, from := View(), src.View();
      var k := 0;
      while k < |src.checks|
        invariant 0 <= k <= |src.checks|
        invariant src.View() == from && checks == old(checks)
        invariant ResultsUpTo(dst, from, src.checks[..k], results)
        invariant DnsUpTo(dst, from, src.checks[..k], dns)
      {
        var c := src.checks[k];
        var addresses := {};
        if c.flow == DnsHealth {
          addresses := Listed(src.dns, c.lookup, false) + Listed(src.dns, c.lookup, true);
          ghost var before := dns;
          var v4, v6 := Entry(src.dns, c.lookup, false), Entry(src.dns, c.lookup, true);
          UpdateReloadDnsEntry(c.lookup, addresses, v4.time, v6.time);
          DnsStep(dst, from, src.checks, k, before, dns);
        } else if c.flow == RemoteHost {
          addresses := set e | e in src.results && SameKey(e.0, c) && Wants(c, e.1) :: e.1;
          DnsSkip(dst, from, src.checks, k, dns);
        } else {
          DnsSkip(dst, from, src.checks, k, dns);
        }
        ghost var before := results;
        RestoreCheck(src, c, addresses);
        ResultsStep(dst, from, src.checks, k, before, results);
        k := k + 1;
      }
      assert src.checks[..k] == src.checks;
      statics := src.statics;
      Finish(dst, from, src.checks, View());
    }
  }

  ghost predicate ResultsUpTo(dst: Snapshot, src: Snapshot, done: seq<Check>, rs: Results)
  {
    forall c, a :: Get(rs, c, a) ==
      if c in done && c in dst.checks && a in Addresses(src, c)
      then Carried(Get(dst.results, c, a), Get(src.results, c, a))
      else Get(dst.results, c, a)
  }

  /** A DNS entry once the checks in `done` have been copied. */
  function DnsAfter(dst: Snapshot, src: Snapshot, done: set<Check>, l: Lookup, ipv6: bool): Found
  {
    if UsedForDns(done, l) && Family(src.dns, l, ipv6) != {}
    then Found(Family(src.dns, l, ipv6), Entry(src.dns, l, ipv6).time)
    else Entry(dst.dns, l, ipv6)
  }

  ghost predicate DnsUpTo(dst: Snapshot, src: Snapshot, done: seq<Check>, dns: Dns)
  {
    forall l, f :: Entry(dns, l, f) == DnsAfter(dst, src, SetOf(done), l, f)
  }

  lemma CarriedTwice(mine: Option<Result>, offered: Option<Result>)
    ensures Carried(Carried(mine, offered), offered) == Carried(mine, offered)
  {
  }

  lemma ResultsStep(dst: Snapshot, src: Snapshot, cs: seq<Check>, k: nat, before: Results, after: Results)
    requires k < |cs| && ResultsUpTo(dst, src, cs[..k], before)
    requires forall d, a :: Get(after, d, a) ==
               if d == cs[k] && a in Addresses(src, cs[k]) && cs[k] in dst.checks
               then Carried(Get(before, d, a), Get(src.results, cs[k], a)) else Get(before, d, a)
    ensures ResultsUpTo(dst, src, cs[..k + 1], after)
  {
    assert cs[..k + 1] == cs[..k] + [cs[k]];
    forall c, a
      ensures Get(after, c, a) ==
        if c in cs[..k + 1] && c in dst.checks && a in Addresses(src, c)
        then Carried(Get(dst.results, c, a), Get(src.results, c, a))
        else Get(dst.results, c, a)
    {
      CarriedTwice(Get(dst.results, c, a), Get(src.results, c, a));
      assert Get(before, c, a) ==
        if c in cs[..k] && c in dst.checks && a in Addresses(src, c)
        then Carried(Get(dst.results, c, a), Get(src.results, c, a))
        else Get(dst.results, c, a);
    }
  }

  lemma UsedStep(cs: seq<Check>, k: nat, l: Lookup)
    requires k < |cs|
    ensures UsedForDns(SetOf(cs[..k + 1]), l) <==>
            UsedForDns(SetOf(cs[..k]), l) || (cs[k].flow == DnsHealth && cs[k].lookup == l)
  {
    assert cs[..k + 1] == cs[..k] + [cs[k]];
    var p, q := SetOf(cs[..k]), SetOf(cs[..k + 1]);
    assert q == p + {cs[k]};
    if UsedForDns(p, l) {
      var c :| c in p && c.flow == DnsHealth && c.lookup == l;
      assert c in q;
    }
    if cs[k].flow == DnsHealth && cs[k].lookup == l { assert cs[k] in q; }
  }

  lemma DnsStep(dst: Snapshot, src: Snapshot, cs: seq<Check>, k: nat, before: Dns, after: Dns)
    requires k < |cs| && DnsUpTo(dst, src, cs[..k], before) && cs[k].flow == DnsHealth
    requires forall l, f :: Entry(after, l, f) ==
               if l == cs[k].lookup && OfFamily(Addresses(src, cs[k]), f) != {}
               then Found(OfFamily(Addresses(src, cs[k]), f), Entry(src.dns, l, f).time)
               else Entry(before, l, f)
    ensures DnsUpTo(dst, src, cs[..k + 1], after)
  {
    forall l, f
      ensures Entry(after, l, f) == DnsAfter(dst, src, SetOf(cs[..k + 1]), l, f)
    {
      UsedStep(cs, k, l);
    }
  }

  lemma DnsSkip(dst: Snapshot, src: Snapshot, cs: seq<Check>, k: nat, dns: Dns)
    requires k < |cs| && DnsUpTo(dst, src, cs[..k], dns) && cs[k].flow != DnsHealth
    ensures DnsUpTo(dst, src, cs[..k + 1], dns)
  {
    forall l, f
      ensures Entry(dns, l, f) == DnsAfter(dst, src, SetOf(cs[..k + 1]), l, f)
    {
      UsedStep(cs, k, l);
    }
  }

  lemma Finish(dst: Snapshot, src: Snapshot, cs: seq<Check>, r: Snapshot)
    requires src.checks == SetOf(cs) && r.checks == dst.checks && r.statics == src.statics
    requires ResultsUpTo(dst, src, cs, r.results) && DnsUpTo(dst, src, cs, r.dns)
    ensures IsRestored(dst, src, r)
  {
  }
}
