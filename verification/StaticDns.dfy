/** Addresses configured by hand, kept per host and address family. */
module StaticDns {
  import opened Basics

  type Key = (string, bool)
  type Table = map<Key, set<Address>>

  function Listed(t: Table, host: string, ipv6: bool): set<Address>
  {
    if (host, ipv6) in t then t[(host, ipv6)] else {}
  }

  /** The addresses that go under a family's key: everything that is not version 6 goes under the other one. */
  function Share(s: set<Address>, ipv6: bool): set<Address>
  {
    set a | a in s && a.V6? == ipv6
  }

  datatype Op = AddOp(host: string, addresses: set<Address>) | RemoveOp(host: string, addresses: set<Address>)

  /** The plain set of a host's addresses under a history of additions and removals. */
  function Plain(ops: seq<Op>, host: string): set<Address>
  {
    if ops == [] then {}
    else
      var before, op := Plain(ops[..|ops| - 1], host), ops[|ops| - 1];
      if op.host != host then before else if op.AddOp? then before + op.addresses else before - op.addresses
  }

  lemma PlainLast(ops: seq<Op>, op: Op, host: string)
    ensures Plain(ops + [op], host) ==
            if op.host != host then Plain(ops, host)
            else if op.AddOp? then Plain(ops, host) + op.addresses
            else Plain(ops, host) - op.addresses
  {
    assert (ops + [op])[..|ops|] == ops;
  }

  lemma ShareGrows(all: set<Address>, todo: set<Address>, a: Address)
    requires a in todo && todo <= all
    ensures Share(all - (todo - {a}), a.V6?) == Share(all - todo, a.V6?) + {a}
    ensures Share(all - (todo - {a}), !a.V6?) == Share(all - todo, !a.V6?)
  {
  }

  lemma ShareOfEdits(s: set<Address>, t: set<Address>, ipv6: bool)
    ensures Share(s + t, ipv6) == Share(s, ipv6) + Share(t, ipv6)
    ensures Share(s - t, ipv6) == Share(s, ipv6) - Share(t, ipv6)
  {
  }

  class StaticDnsTable {
    var table: Table
    ghost var history: seq<Op>

    /** Each lookup is its family's share of the host's plain set. */
    ghost predicate Valid()
      reads this
    {
      forall h, f :: Listed(table, h, f) == Share(Plain(history, h), f)
    }

    constructor ()
      ensures Valid() && history == []
    {
      table, history := map[], [];
    }

    method Add(host: string, addresses: set<Address>)
      requires Valid()
      modifies this
      ensures Valid() && history == old(history) + [AddOp(host, addresses)]
    {
      var todo := addresses;
      while todo != {}
        invariant todo <= addresses
        invariant history == old(history)
        invariant forall h, f :: Listed(table, h, f) ==
                    old(Listed(table, h, f)) + (if h == host then Share(addresses - todo, f) else {})
      {
        var a :| a in todo;
        var key := (host, a.V6?);
        ShareGrows(addresses, todo, a);
        if key !in table {
          table := table[key := {a}];
        } else {
          table := table[key := table[key] + {a}];
        }
        todo := todo - {a};
      }
      assert addresses - todo == addresses;
      history := history + [AddOp(host, addresses)];
      forall h, f ensures Listed(table, h, f) == Share(Plain(history, h), f) {
        PlainLast(old(history), AddOp(host, addresses), h);
        ShareOfEdits(Plain(old(history), h), addresses, f);
      }
    }

    method Remove(host: string, addresses: set<Address>)
      requires Valid()
      modifies this
      ensures Valid() && history == old(history) + [RemoveOp(host, addresses)]
    {
      var todo := addresses;
      while todo != {}
        invariant todo <= addresses
        invariant history == old(history)
        invariant forall h, f :: Listed(table, h, f) ==
                    old(Listed(table, h, f)) - (if h == host then Share(addresses - todo, f) else {})
      {
        var a :| a in todo;
        var key := (host, a.V6?);
        ShareGrows(addresses, todo, a);
        if key in table {
          table := table[key := table[key] - {a}];
        }
        todo := todo - {a};
      }
      assert addresses - todo == addresses;
      history := history + [RemoveOp(host, addresses)];
      forall h, f ensures Listed(table, h, f) == Share(Plain(history, h), f) {
        PlainLast(old(history), RemoveOp(host, addresses), h);
        ShareOfEdits(Plain(old(history), h), addresses, f);
      }
    }

    /** The addresses under one family's key, and whether there are any. */
    method Get(host: string, ipv6: bool) returns (addresses: set<Address>, some: bool)
      requires Valid()
      ensures addresses == Share(Plain(history, host), ipv6) && some == (addresses != {})
    {
      addresses := {};
      if (host, ipv6) in table {
        addresses := addresses + table[(host, ipv6)];
      }
      assert addresses == Listed(table, host, ipv6);
      return addresses, |addresses| > 0;
    }
  }

  /** After any history of a table's additions and removals, the union of the two lookups is the plain set, and they
      have nothing in common. */
  lemma LookupsPartitionPlain(t: StaticDnsTable, host: string)
    requires t.Valid()
    ensures Listed(t.table, host, false) + Listed(t.table, host, true) == Plain(t.history, host)
    ensures Listed(t.table, host, false) * Listed(t.table, host, true) == {}
  {
    var p := Plain(t.history, host);
    assert Listed(t.table, host, false) == Share(p, false) && Listed(t.table, host, true) == Share(p, true);
    assert Share(p, false) + Share(p, true) == p;
    assert Share(p, false) * Share(p, true) == {};
  }

  /** The version 6 lookup is all version 6; the version 4 lookup is all version 4 exactly when no address without a
      type is in the plain set. */
  lemma AllV4Iff(t: StaticDnsTable, host: string)
    requires t.Valid()
    ensures (forall a :: a in Listed(t.table, host, false) ==> a.V4?) <==> Unset !in Plain(t.history, host)
    ensures forall a :: a in Listed(t.table, host, true) ==> a.V6?
  {
    var p := Plain(t.history, host);
    assert Listed(t.table, host, false) == Share(p, false) && Listed(t.table, host, true) == Share(p, true);
    if Unset in p { assert Unset in Share(p, false); }
  }
}
