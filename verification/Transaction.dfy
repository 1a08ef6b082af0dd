/**
 Editing the transaction configuration and committing it.

 Configurations are state objects reached through two pointers, the running one and the transaction
 one.  A client edits in two steps, fetching the transaction pointer and then changing the object it
 points to; clearing the transaction is also two steps, reading the running pointer and then replacing the
 transaction by a copy.  A commit copies the transaction, compares hashes, and installs the copy.
 Commits and reloads exclude each other but not the edits.
 */
module Transaction {
  import opened Basics
  import opened ConfigHash
  import opened TextOrder

  type Hash = nat
  type Digest = Feed -> Hash

  datatype Item = Item(key: string, group: Group)

  /** A map from group names to groups, in key order. */
  type Config = seq<Item>

  function Put(c: Config, key: string, g: Group): Config
  {
    if c == [] || Before(key, c[0].key) then [Item(key, g)] + c
    else if c[0].key == key then [Item(key, g)] + c[1..]
    else [c[0]] + Put(c[1..], key, g)
  }

  function Erase(c: Config, key: string): Config
  {
    if c == [] then [] else if c[0].key == key then c[1..] else [c[0]] + Erase(c[1..], key)
  }

  function Find(c: Config, key: string): Option<Group>
  {
    if c == [] then None else if c[0].key == key then Some(c[0].group) else Find(c[1..], key)
  }

  function Images(c: Config): (r: seq<Feed>)
    ensures |r| == |c| && forall i :: 0 <= i < |c| ==> r[i] == Image(c[i].group)
  {
    seq(|c|, i requires 0 <= i < |c| => Image(c[i].group))
  }

  function Joined(parts: seq<Feed>): Feed
  {
    if parts == [] then [] else parts[0] + Joined(parts[1..])
  }

  /** The groups' images one after the other. */
  function ConfigImage(c: Config): Feed { Joined(Images(c)) }

  function HashOf(d: Digest, c: Config): Hash { d(ConfigImage(c)) }

  lemma {:induction false} FindAfterPut(c: Config, key: string, g: Group, k: string)
    ensures Find(Put(c, key, g), k) == if k == key then Some(g) else Find(c, k)
  {
    var r := Put(c, key, g);
    if c == [] || Before(key, c[0].key) {
      assert r[1..] == c;
    } else if c[0].key == key {
      assert r[1..] == c[1..];
    } else {
      FindAfterPut(c[1..], key, g, k);
      assert r[1..] == Put(c[1..], key, g);
    }
  }

  /** Keys are strictly increasing, hence unique. */
  predicate Sorted(c: Config)
  {
    forall i, j :: 0 <= i < j < |c| ==> Before(c[i].key, c[j].key)
  }

  lemma SortedTail(c: Config)
    requires c != [] && Sorted(c)
    ensures Sorted(c[1..])
    ensures forall item :: item in c[1..] ==> Before(c[0].key, item.key)
  {
    forall i, j | 0 <= i < j < |c[1..]| ensures Before(c[1..][i].key, c[1..][j].key) {
      assert c[1..][i] == c[i + 1] && c[1..][j] == c[j + 1];
    }
  }

  lemma SortedCons(item: Item, rest: Config)
    requires Sorted(rest) && forall r :: r in rest ==> Before(item.key, r.key)
    ensures Sorted([item] + rest)
  {
    var c := [item] + rest;
    forall i, j | 0 <= i < j < |c| ensures Before(c[i].key, c[j].key) {
      assert c[j] == rest[j - 1];
      if i > 0 { assert c[i] == rest[i - 1]; }
    }
  }

  lemma {:induction false} PutMembers(c: Config, key: string, g: Group, item: Item)
    requires item in Put(c, key, g)
    ensures item.key == key || item in c
  {
    if c != [] && !Before(key, c[0].key) && c[0].key != key && item != c[0] {
      PutMembers(c[1..], key, g, item);
    }
  }

  lemma {:induction false} PutSorted(c: Config, key: string, g: Group)
    requires Sorted(c)
    ensures Sorted(Put(c, key, g))
  {
    if c == [] {
      assert Put(c, key, g) == [Item(key, g)];
    } else {
      SortedTail(c);
      if Before(key, c[0].key) {
        forall r | r in c ensures Before(key, r.key) {
          if r != c[0] {
            assert r in c[1..] by { assert c == [c[0]] + c[1..]; }
            BeforeTransitive(key, c[0].key, r.key);
          }
        }
        SortedCons(Item(key, g), c);
      } else if c[0].key == key {
        SortedCons(Item(key, g), c[1..]);
      } else {
        PutSorted(c[1..], key, g);
        BeforeTotal(key, c[0].key);
        forall r | r in Put(c[1..], key, g) ensures Before(c[0].key, r.key) { PutMembers(c[1..], key, g, r); }
        SortedCons(c[0], Put(c[1..], key, g));
      }
    }
  }

  lemma {:induction false} EraseMembers(c: Config, key: string, item: Item)
    requires item in Erase(c, key)
    ensures item in c
  {
    if c[0].key != key && item != c[0] { EraseMembers(c[1..], key, item); }
  }

  lemma {:induction false} EraseSorted(c: Config, key: string)
    requires Sorted(c)
    ensures Sorted(Erase(c, key))
  {
    if c != [] {
      SortedTail(c);
      if c[0].key != key {
        EraseSorted(c[1..], key);
        forall r | r in Erase(c[1..], key) ensures Before(c[0].key, r.key) { EraseMembers(c[1..], key, r); }
        SortedCons(c[0], Erase(c[1..], key));
      }
    }
  }

  lemma {:induction false} FindAbsent(c: Config, key: string)
    requires forall item :: item in c ==> item.key != key
    ensures Find(c, key) == None
  {
    if c != [] { FindAbsent(c[1..], key); }
  }

  lemma {:induction false} FindAfterErase(c: Config, key: string, k: string)
    requires Sorted(c)
    ensures Find(Erase(c, key), k) == if k == key then None else Find(c, k)
  {
    if c != [] {
      SortedTail(c);
      if c[0].key == key {
        NotBeforeItself(key);
        FindAbsent(c[1..], key);
      } else {
        FindAfterErase(c[1..], key, k);
        assert ([c[0]] + Erase(c[1..], key))[1..] == Erase(c[1..], key);
      }
    }
  }

  // ----- the protocol -----

  type Id = nat

  datatype Client = Away | Editing(id: Id) | Clearing(from: Id)

  datatype Commit = NoCommit | Copied(id: Id, hash: Hash) | Accepted(id: Id, hash: Hash) | Handed(id: Id, hash: Hash)

  datatype State = State(objects: seq<Config>, running: Id, transaction: Id, clients: seq<Client>, commit: Commit)

  datatype Step =
    | Fetch(c: nat)
    | AddGroup(c: nat, key: string, group: Group)
    | RemoveGroup(c: nat, key: string)
    | BeginClear(c: nat)
    | EndClear(c: nat)
    | BeginCommit(hash: Hash)        // copy the transaction
    | Mismatch                       // hashes differ: give up
    | Accept                         // hashes agree
    | Fail                           // hashing or opening the backend failed
    | HandOver                       // make the next transaction a copy of what is about to run
    | Install
    | Reload(config: Config)         // a complete reload from the configuration files

  predicate Enabled(s: State, step: Step, d: Digest)
  {
    match step
    case Fetch(c) => c < |s.clients| && s.clients[c] == Away
    case AddGroup(c, _, _) => c < |s.clients| && s.clients[c].Editing? && s.clients[c].id < |s.objects|
    case RemoveGroup(c, _) => c < |s.clients| && s.clients[c].Editing? && s.clients[c].id < |s.objects|
    case BeginClear(c) => c < |s.clients| && s.clients[c] == Away
    case EndClear(c) => c < |s.clients| && s.clients[c].Clearing? && s.clients[c].from < |s.objects|
    case BeginCommit(_) => s.commit == NoCommit && s.transaction < |s.objects|
    case Mismatch => s.commit.Copied? && s.commit.id < |s.objects| && HashOf(d, s.objects[s.commit.id]) != s.commit.hash
    case Accept => s.commit.Copied? && s.commit.id < |s.objects| && HashOf(d, s.objects[s.commit.id]) == s.commit.hash
    case Fail => s.commit.Copied? || s.commit.Accepted?
    case HandOver => s.commit.Accepted? && s.commit.id < |s.objects|
    case Install => s.commit.Handed?
    case Reload(_) => s.commit == NoCommit
  }

  function Apply(s: State, step: Step, d: Digest): State
    requires Enabled(s, step, d)
  {
    var n := |s.objects|;
    match step
    case Fetch(c) => s.(clients := s.clients[c := Editing(s.transaction)])
    case AddGroup(c, key, g) =>
      var id := s.clients[c].id;
      s.(objects := s.objects[id := Put(s.objects[id], key, g)], clients := s.clients[c := Away])
    case RemoveGroup(c, key) =>
      var id := s.clients[c].id;
      s.(objects := s.objects[id := Erase(s.objects[id], key)], clients := s.clients[c := Away])
    case BeginClear(c) => s.(clients := s.clients[c := Clearing(s.running)])
    case EndClear(c) =>
      s.(objects := s.objects + [s.objects[s.clients[c].from]], transaction := n, clients := s.clients[c := Away])
    case BeginCommit(h) => s.(objects := s.objects + [s.objects[s.transaction]], commit := Copied(n, h))
    case Mismatch => s.(commit := NoCommit)
    case Accept => s.(commit := Accepted(s.commit.id, s.commit.hash))
    case Fail => s.(commit := NoCommit)
    case HandOver =>
      s.(objects := s.objects + [s.objects[s.commit.id]], transaction := n,
         commit := Handed(s.commit.id, s.commit.hash))
    case Install => s.(running := s.commit.id, commit := NoCommit)
    case Reload(config) => s.(objects := s.objects + [config, config], running := n, transaction := n + 1)
  }

  predicate IsRun(s: State, steps: seq<Step>, d: Digest)
    decreases |steps|
  {
    steps == [] || (Enabled(s, steps[0], d) && IsRun(Apply(s, steps[0], d), steps[1..], d))
  }

  function Final(s: State, steps: seq<Step>, d: Digest): State
    requires IsRun(s, steps, d)
    decreases |steps|
  {
    if steps == [] then s else Final(Apply(s, steps[0], d), steps[1..], d)
  }

  predicate Initial(s: State)
  {
    && |s.objects| == 2 && s.running == 0 && s.transaction == 1 && s.commit == NoCommit
    && forall c :: 0 <= c < |s.clients| ==> s.clients[c] == Away
  }

  // ----- what clients can reach -----

  /** Objects a client may change: never the running one, never the one a commit is about to install. */
  predicate Editable(s: State, id: Id)
  {
    id < |s.objects| && id != s.running && (s.commit != NoCommit ==> id != s.commit.id)
  }

  predicate ClientOk(s: State, c: Client)
  {
    match c
    case Away => true
    case Editing(id) => Editable(s, id)
    case Clearing(from) => from < |s.objects|
  }

  predicate Inv(s: State)
  {
    && s.running < |s.objects|
    && Editable(s, s.transaction)
    && (s.commit != NoCommit ==> s.commit.id < |s.objects| && s.commit.id != s.running)
    && forall c :: 0 <= c < |s.clients| ==> ClientOk(s, s.clients[c])
  }

  lemma StepKeepsInv(s: State, step: Step, d: Digest)
    requires Inv(s) && Enabled(s, step, d)
    ensures Inv(Apply(s, step, d))
  {
    var r := Apply(s, step, d);
    forall c | 0 <= c < |r.clients| ensures ClientOk(r, r.clients[c]) {
      assert ClientOk(s, s.clients[c]);
    }
  }

  lemma {:induction false} RunKeepsInv(s: State, steps: seq<Step>, d: Digest)
    requires Inv(s) && IsRun(s, steps, d)
    ensures Inv(Final(s, steps, d))
    decreases |steps|
  {
    if steps != [] {
      StepKeepsInv(s, steps[0], d);
      RunKeepsInv(Apply(s, steps[0], d), steps[1..], d);
    }
  }

  // ----- the running configuration -----

  function Running(s: State): Config
    requires Inv(s)
  {
    s.objects[s.running]
  }

  predicate Replaces(step: Step) { step.Install? || step.Reload? }

  lemma StepKeepsRunning(s: State, step: Step, d: Digest)
    requires Inv(s) && Enabled(s, step, d) && !Replaces(step)
    ensures var r := Apply(s, step, d);
            r.running == s.running && r.running < |r.objects| && r.objects[r.running] == s.objects[s.running]
  {
    if step.AddGroup? || step.RemoveGroup? { assert ClientOk(s, s.clients[step.c]); }
  }

  lemma {:induction false} RunKeepsRunning(s: State, steps: seq<Step>, d: Digest)
    requires Inv(s) && IsRun(s, steps, d) && forall step :: step in steps ==> !Replaces(step)
    ensures var t := Final(s, steps, d); Inv(t) && t.running == s.running && Running(t) == Running(s)
    decreases |steps|
  {
    if steps != [] {
      assert steps[0] in steps && forall step :: step in steps[1..] ==> step in steps;
      StepKeepsInv(s, steps[0], d);
      StepKeepsRunning(s, steps[0], d);
      RunKeepsRunning(Apply(s, steps[0], d), steps[1..], d);
    }
  }

  /** However many clients add, remove, clear, and commit with wrong hashes, the running configuration stays
      as it is until something is installed. */
  lemma OnlyInstallChangesRunning(s: State, before: seq<Step>, steps: seq<Step>, d: Digest)
    requires Initial(s) && IsRun(s, before, d) && IsRun(Final(s, before, d), steps, d)
    requires forall step :: step in steps ==> !Replaces(step)
    ensures var t, u := Final(s, before, d), Final(Final(s, before, d), steps, d);
            Inv(t) && Inv(u) && u.running == t.running && Running(u) == Running(t)
  {
    RunKeepsInv(s, before, d);
    RunKeepsRunning(Final(s, before, d), steps, d);
  }

  // ----- one commit, with anything happening in between -----

  /** A commit of contents c under hash h is in progress. */
  predicate InCommit(s: State, c: Config, h: Hash, d: Digest)
  {
    && s.commit != NoCommit && s.commit.id < |s.objects|
    && s.objects[s.commit.id] == c && s.commit.hash == h
    && (!s.commit.Copied? ==> HashOf(d, c) == h)
  }

  predicate EndsCommit(step: Step) { step.Mismatch? || step.Fail? || step.Install? }

  lemma StepInCommit(s: State, step: Step, c: Config, h: Hash, d: Digest)
    requires Inv(s) && InCommit(s, c, h, d) && Enabled(s, step, d) && !EndsCommit(step)
    ensures InCommit(Apply(s, step, d), c, h, d)
  {
    if step.AddGroup? || step.RemoveGroup? { assert ClientOk(s, s.clients[step.c]); }
  }

  lemma {:induction false} RunInCommit(s: State, steps: seq<Step>, c: Config, h: Hash, d: Digest)
    requires Inv(s) && InCommit(s, c, h, d) && IsRun(s, steps, d)
    requires forall step :: step in steps ==> !EndsCommit(step)
    ensures var t := Final(s, steps, d);
            Inv(t) && InCommit(t, c, h, d) && t.running == s.running && Running(t) == Running(s)
    decreases |steps|
  {
    if steps != [] {
      var step := steps[0];
      assert step in steps && forall x :: x in steps[1..] ==> x in steps;
      StepInCommit(s, step, c, h, d);
      StepKeepsInv(s, step, d);
      StepKeepsRunning(s, step, d);
      RunInCommit(Apply(s, step, d), steps[1..], c, h, d);
    }
  }

  /** A reachable state, a commit begun in it, and whatever happens until that commit ends. */
  ghost predicate CommitRun(s: State, before: seq<Step>, h: Hash, during: seq<Step>, d: Digest)
  {
    && Initial(s) && IsRun(s, before, d)
    && var t := Final(s, before, d);
      && Enabled(t, BeginCommit(h), d)
      && IsRun(Apply(t, BeginCommit(h), d), during, d)
      && (forall step :: step in during ==> !EndsCommit(step))
  }

  lemma CommitRunInv(s: State, before: seq<Step>, h: Hash, during: seq<Step>, d: Digest)
    requires CommitRun(s, before, h, during, d)
    ensures var t := Final(s, before, d);
            var u := Final(Apply(t, BeginCommit(h), d), during, d);
            && Inv(t) && Inv(u) && InCommit(u, t.objects[t.transaction], h, d)
            && u.running == t.running && Running(u) == Running(t)
  {
    RunKeepsInv(s, before, d);
    var t := Final(s, before, d);
    StepKeepsInv(t, BeginCommit(h), d);
    StepKeepsRunning(t, BeginCommit(h), d);
    RunInCommit(Apply(t, BeginCommit(h), d), during, t.objects[t.transaction], h, d);
  }

  /** A successful commit installs exactly the contents the transaction had when the commit copied it, those
      contents have the hash that was sent, and later edits of the transaction do not leak in. */
  lemma CommitInstallsWhatWasHashed(s: State, before: seq<Step>, h: Hash, during: seq<Step>, d: Digest)
    requires CommitRun(s, before, h, during, d)
    requires Enabled(Final(Apply(Final(s, before, d), BeginCommit(h), d), during, d), Install, d)
    ensures var t := Final(s, before, d);
            var r := Apply(Final(Apply(t, BeginCommit(h), d), during, d), Install, d);
            Inv(t) && Inv(r) && Running(r) == t.objects[t.transaction] && HashOf(d, Running(r)) == h
  {
    CommitRunInv(s, before, h, during, d);
    var u := Final(Apply(Final(s, before, d), BeginCommit(h), d), during, d);
    StepKeepsInv(u, Install, d);
  }

  /** A refused or failed commit leaves the running configuration alone. */
  lemma RefusedCommitChangesNothing(s: State, before: seq<Step>, h: Hash, during: seq<Step>, end: Step, d: Digest)
    requires CommitRun(s, before, h, during, d) && (end == Mismatch || end == Fail)
    requires Enabled(Final(Apply(Final(s, before, d), BeginCommit(h), d), during, d), end, d)
    ensures var t := Final(s, before, d);
            var r := Apply(Final(Apply(t, BeginCommit(h), d), during, d), end, d);
            Inv(t) && Inv(r) && r.running == t.running && Running(r) == Running(t)
  {
    CommitRunInv(s, before, h, during, d);
    var u := Final(Apply(Final(s, before, d), BeginCommit(h), d), during, d);
    StepKeepsInv(u, end, d);
    StepKeepsRunning(u, end, d);
  }

  /** A commit is refused exactly when the transaction it copied has another hash than the one sent. */
  lemma RefusedIff(s: State, before: seq<Step>, h: Hash, during: seq<Step>, d: Digest)
    requires CommitRun(s, before, h, during, d)
    requires Final(Apply(Final(s, before, d), BeginCommit(h), d), during, d).commit.Copied?
    ensures var t := Final(s, before, d);
            var u := Final(Apply(t, BeginCommit(h), d), during, d);
            && Inv(t)
            && (Enabled(u, Mismatch, d) <==> HashOf(d, t.objects[t.transaction]) != h)
            && (Enabled(u, Accept, d) <==> HashOf(d, t.objects[t.transaction]) == h)
  {
    CommitRunInv(s, before, h, during, d);
  }

  ghost predicate Injective(d: Digest) { forall x, y :: d(x) == d(y) ==> x == y }

  /** A client that hashed a configuration and committed with that hash gets a configuration with the same
      image, and hence, group by group, the same hashed fields. */
  lemma CommittedImageIsTheOneSeen(s: State, before: seq<Step>, seen: Config, during: seq<Step>, d: Digest)
    requires Injective(d) && CommitRun(s, before, HashOf(d, seen), during, d)
    requires Enabled(Final(Apply(Final(s, before, d), BeginCommit(HashOf(d, seen)), d), during, d), Install, d)
    ensures var r := Apply(Final(Apply(Final(s, before, d), BeginCommit(HashOf(d, seen)), d), during, d), Install, d);
            Inv(r) && ConfigImage(Running(r)) == ConfigImage(seen)
  {
    CommitInstallsWhatWasHashed(s, before, HashOf(d, seen), during, d);
  }

  lemma {:induction false} JoinedConcat(a: seq<Feed>, b: seq<Feed>)
    ensures Joined(a + b) == Joined(a) + Joined(b)
  {
    if a == [] {
      assert a + b == b;
    } else {
      JoinedConcat(a[1..], b);
      assert (a + b)[1..] == a[1..] + b;
      FeedAssoc(a[0], Joined(a[1..]), Joined(b));
    }
  }

  lemma JoinedOne(x: Feed)
    ensures Joined([x]) == x
  {
    assert [x][1..] == [];
    assert x + [] == x;
  }

  lemma ImageOfConcat(a: Config, b: Config)
    ensures ConfigImage(a + b) == ConfigImage(a) + ConfigImage(b)
  {
    assert Images(a + b) == Images(a) + Images(b);
    JoinedConcat(Images(a), Images(b));
  }

  lemma FeedAssoc(x: Feed, y: Feed, z: Feed)
    ensures (x + y) + z == x + (y + z)
  {
  }

  function WithGroup(before: Config, key: string, g: Group, after: Config): Config
  {
    before + ([Item(key, g)] + after)
  }

  lemma ImageWithGroup(before: Config, key: string, g: Group, after: Config)
    ensures ConfigImage(WithGroup(before, key, g, after)) == ConfigImage(before) + (Image(g) + ConfigImage(after))
  {
    ImageOfConcat(before, [Item(key, g)] + after);
    ImageOfConcat([Item(key, g)], after);
    assert Images([Item(key, g)]) == [Image(g)];
    JoinedOne(Image(g));
  }

  lemma SuffixEqual(a: Feed, b: Feed, x: Feed)
    requires a + x == b + x
    ensures a == b
  {
    assert |a| == |b|;
    assert (a + x)[..|a|] == a && (b + x)[..|b|] == b;
  }

  /** Among any other groups, a group and its edited version give the same configuration image exactly when they agree
      in everything the hash covers. */
  lemma EditedGroupImageIff(before: Config, key: string, g: Group, h: Group, after: Config)
    requires g.name == h.name && WellTyped(g) && WellTyped(h)
    ensures ConfigImage(WithGroup(before, key, g, after)) == ConfigImage(WithGroup(before, key, h, after)) <==>
            SameHashed(g, h)
  {
    ImageWithGroup(before, key, g, after);
    ImageWithGroup(before, key, h, after);
    SameNameImageIff(g, h);
    var p, q := Image(g) + ConfigImage(after), Image(h) + ConfigImage(after);
    if ConfigImage(before) + p == ConfigImage(before) + q {
      SplitEqual(ConfigImage(before), p, ConfigImage(before), q);
      SuffixEqual(Image(g), Image(h), ConfigImage(after));
    }
  }

  /** A commit under the hash of the configuration a client saw, when the transaction has meanwhile got another
      version of one group, is accepted if and only if the two versions agree in everything the hash covers.  Check
      information, remote check, plugin, flow and DNS type, and the division into host names, may all differ. */
  lemma EditedGroupAcceptedIff(s: State, steps: seq<Step>, before: Config, key: string, seen: Group, copied: Group,
                               after: Config,
                               during: seq<Step>, d: Digest)
    requires Injective(d) && CommitRun(s, steps, HashOf(d, WithGroup(before, key, seen, after)), during, d)
    requires var h := HashOf(d, WithGroup(before, key, seen, after));
             Final(Apply(Final(s, steps, d), BeginCommit(h), d), during, d).commit.Copied?
    requires var t := Final(s, steps, d);
             t.transaction < |t.objects| && t.objects[t.transaction] == WithGroup(before, key, copied, after)
    requires seen.name == copied.name && WellTyped(seen) && WellTyped(copied)
    ensures var h := HashOf(d, WithGroup(before, key, seen, after));
            var u := Final(Apply(Final(s, steps, d), BeginCommit(h), d), during, d);
            && (Enabled(u, Accept, d) <==> SameHashed(seen, copied))
            && (Enabled(u, Mismatch, d) <==> !SameHashed(seen, copied))
  {
    RefusedIff(s, steps, HashOf(d, WithGroup(before, key, seen, after)), during, d);
    EditedGroupImageIff(before, key, seen, copied, after);
  }

  // ----- what the hash does not protect -----

  /** One client hashes, another replaces the group by one that differs in unhashed fields, the first commits:
      the commit succeeds and runs what the first client never saw. */
  lemma UnhashedEditPasses(s: State, key: string, g: Group, u: Unhashed, d: Digest)
    requires Initial(s) && |s.clients| > 0 && s.objects[1] == [Item(key, g)] && u != g.unhashed
    ensures var h := HashOf(d, s.objects[s.transaction]);
            var steps := [Fetch(0), AddGroup(0, key, g.(unhashed := u)), BeginCommit(h), Accept, HandOver, Install];
            && IsRun(s, steps, d)
            && var t := Final(s, steps, d);
              && t.running < |t.objects|
              && t.objects[t.running] == [Item(key, g.(unhashed := u))] != s.objects[s.transaction]
  {
    var g' := g.(unhashed := u);
    var h := HashOf(d, s.objects[1]);
    UnhashedSameHash(key, g, u, d);
    var s1 := Apply(s, Fetch(0), d);
    var s2 := Apply(s1, AddGroup(0, key, g'), d);
    var s3 := Apply(s2, BeginCommit(h), d);
    var s4 := Apply(s3, Accept, d);
    var s5 := Apply(s4, HandOver, d);
    var s6 := Apply(s5, Install, d);
    SixSteps(s, Fetch(0), AddGroup(0, key, g'), BeginCommit(h), Accept, HandOver, Install, d, s1, s2, s3, s4, s5, s6);
  }

  lemma UnhashedSameHash(key: string, g: Group, u: Unhashed, d: Digest)
    ensures var g' := g.(unhashed := u);
            && Put([Item(key, g)], key, g') == [Item(key, g')]
            && HashOf(d, [Item(key, g)]) == HashOf(d, [Item(key, g')])
  {
    var g' := g.(unhashed := u);
    NotBeforeItself(key);
    BlindSpots(g, u, "", "");
    assert Images([Item(key, g)]) == [Image(g)] == [Image(g')] == Images([Item(key, g')]);
  }

  lemma SixSteps(s: State, a: Step, b: Step, c: Step, e: Step, f: Step, g: Step, d: Digest,
                 s1: State, s2: State, s3: State, s4: State, s5: State, s6: State)
    requires Enabled(s, a, d) && s1 == Apply(s, a, d)
    requires Enabled(s1, b, d) && s2 == Apply(s1, b, d)
    requires Enabled(s2, c, d) && s3 == Apply(s2, c, d)
    requires Enabled(s3, e, d) && s4 == Apply(s3, e, d)
    requires Enabled(s4, f, d) && s5 == Apply(s4, f, d)
    requires Enabled(s5, g, d) && s6 == Apply(s5, g, d)
    ensures IsRun(s, [a, b, c, e, f, g], d) && Final(s, [a, b, c, e, f, g], d) == s6
  {
    Cons(s5, g, [], d);
    Cons(s4, f, [g], d);
    Cons(s3, e, [f, g], d);
    Cons(s2, c, [e, f, g], d);
    Cons(s1, b, [c, e, f, g], d);
    Cons(s, a, [b, c, e, f, g], d);
    assert [g] + [] == [g] && [f] + [g] == [f, g] && [e] + [f, g] == [e, f, g];
    assert [c] + [e, f, g] == [c, e, f, g] && [b] + [c, e, f, g] == [b, c, e, f, g];
    assert [a] + [b, c, e, f, g] == [a, b, c, e, f, g];
  }

  lemma Cons(s: State, step: Step, rest: seq<Step>, d: Digest)
    requires Enabled(s, step, d) && IsRun(Apply(s, step, d), rest, d)
    ensures IsRun(s, [step] + rest, d) && Final(s, [step] + rest, d) == Final(Apply(s, step, d), rest, d)
  {
    assert ([step] + rest)[1..] == rest;
  }

  // ----- what the transaction holds afterwards -----

  predicate IsEdit(step: Step) { step.AddGroup? || step.RemoveGroup? }

  /** The step edits the object: its client fetched it. */
  predicate EditsObject(s: State, step: Step, id: Id)
  {
    IsEdit(step) && step.c < |s.clients| && s.clients[step.c] == Editing(id)
  }

  /** A configuration with those edits of a run applied, in order, that are aimed at the object. */
  function WithEdits(config: Config, s: State, steps: seq<Step>, id: Id, d: Digest): Config
    requires IsRun(s, steps, d)
    decreases |steps|
  {
    if steps == [] then config
    else
      var step := steps[0];
      WithEdits(if EditsObject(s, step, id) then Edited(config, step) else config,
                Apply(s, step, d), steps[1..], id, d)
  }

  /** Over every run, an object holds what it held with exactly the edits aimed at it applied, in order. */
  lemma {:induction false} ObjectFollowsItsEdits(s: State, steps: seq<Step>, id: Id, d: Digest)
    requires id < |s.objects| && IsRun(s, steps, d)
    ensures var t := Final(s, steps, d);
            id < |t.objects| && t.objects[id] == WithEdits(s.objects[id], s, steps, id, d)
    decreases |steps|
  {
    if steps != [] {
      var r := Apply(s, steps[0], d);
      assert r.objects[id] == if EditsObject(s, steps[0], id) then Edited(s.objects[id], steps[0]) else s.objects[id];
      ObjectFollowsItsEdits(r, steps[1..], id, d);
    }
  }

  lemma {:induction false} NoEditsNoChange(config: Config, s: State, steps: seq<Step>, id: Id, d: Digest)
    requires IsRun(s, steps, d) && forall step :: step in steps ==> !IsEdit(step)
    ensures WithEdits(config, s, steps, id, d) == config
    decreases |steps|
  {
    if steps != [] {
      assert steps[0] in steps && forall step :: step in steps[1..] ==> step in steps;
      NoEditsNoChange(config, Apply(s, steps[0], d), steps[1..], id, d);
    }
  }

  /** After a successful commit, whatever clients do between the hand-over and the installation: the next transaction
      is the configuration that now runs with the edits made of it in between applied in order, unless a clear has
      replaced it; without edits and clears it is the running configuration. */
  lemma CommitLeavesRunningInTransaction(s: State, before: seq<Step>, h: Hash, during: seq<Step>, after: seq<Step>,
                                         d: Digest)
    requires CommitRun(s, before, h, during, d)
    requires var u := Final(Apply(Final(s, before, d), BeginCommit(h), d), during, d);
             && Enabled(u, HandOver, d) && IsRun(Apply(u, HandOver, d), after, d)
             && Enabled(Final(Apply(u, HandOver, d), after, d), Install, d)
    requires forall step :: step in after ==> !EndsCommit(step)
    ensures var u := Final(Apply(Final(s, before, d), BeginCommit(h), d), during, d);
            var v := Apply(u, HandOver, d);
            var w := Final(v, after, d);
            var r := Apply(w, Install, d);
            && Inv(r) && v.transaction < |r.objects|
            && r.objects[v.transaction] == WithEdits(Running(r), v, after, v.transaction, d)
            && (r.transaction == v.transaction <==> NoneMoves(after))
            && (NoneMoves(after) && (forall step :: step in after ==> !IsEdit(step)) ==>
                  r.objects[r.transaction] == Running(r))
  {
    var t := Final(s, before, d);
    var c := t.objects[t.transaction];
    CommitRunInv(s, before, h, during, d);
    var u := Final(Apply(t, BeginCommit(h), d), during, d);
    StepKeepsInv(u, HandOver, d);
    StepInCommit(u, HandOver, c, h, d);
    var v := Apply(u, HandOver, d);
    assert v.objects[v.transaction] == c;
    RunInCommit(v, after, c, h, d);
    var w := Final(v, after, d);
    StepKeepsInv(w, Install, d);
    ObjectFollowsItsEdits(v, after, v.transaction, d);
    TransactionMovesOn(v, v.transaction, after, d);
    if forall step :: step in after ==> !IsEdit(step) {
      NoEditsNoChange(c, v, after, v.transaction, d);
    }
  }

  /** After a reload the running configuration and the transaction both have the contents that were loaded. */
  lemma ReloadLeavesLoadedInTransaction(s: State, before: seq<Step>, config: Config, d: Digest)
    requires Initial(s) && IsRun(s, before, d) && Enabled(Final(s, before, d), Reload(config), d)
    ensures var r := Apply(Final(s, before, d), Reload(config), d);
            Inv(r) && Running(r) == config && r.objects[r.transaction] == config && r.transaction != r.running
  {
    RunKeepsInv(s, before, d);
    StepKeepsInv(Final(s, before, d), Reload(config), d);
  }

  // ----- edits that race with a commit -----

  /** Steps that make another object the transaction. */
  predicate MovesTransaction(step: Step) { step.HandOver? || step.EndClear? || step.Reload? }

  predicate NoneMoves(steps: seq<Step>)
  {
    forall step :: step in steps ==> !MovesTransaction(step)
  }

  /** The step with which a client finishes what it is doing. */
  predicate Finishes(step: Step, c: nat)
  {
    (step.AddGroup? || step.RemoveGroup? || step.EndClear?) && step.c == c
  }

  /** A client that is in the middle of something stays where it is until it finishes. */
  lemma {:induction false} BusyClientStays(s: State, c: nat, steps: seq<Step>, d: Digest)
    requires Inv(s) && c < |s.clients| && s.clients[c] != Away && IsRun(s, steps, d)
    requires forall step :: step in steps ==> !Finishes(step, c)
    ensures var t := Final(s, steps, d); Inv(t) && c < |t.clients| && t.clients[c] == s.clients[c]
    decreases |steps|
  {
    if steps != [] {
      assert steps[0] in steps && forall step :: step in steps[1..] ==> step in steps;
      StepKeepsInv(s, steps[0], d);
      BusyClientStays(Apply(s, steps[0], d), c, steps[1..], d);
    }
  }

  /** An object is the transaction for as long as nothing moves the transaction, and never again. */
  lemma {:induction false} TransactionMovesOn(s: State, id: Id, steps: seq<Step>, d: Digest)
    requires id < |s.objects| && IsRun(s, steps, d)
    ensures Final(s, steps, d).transaction == id <==> s.transaction == id && NoneMoves(steps)
    ensures id < |Final(s, steps, d).objects|
    decreases |steps|
  {
    if steps != [] {
      assert NoneMoves(steps) <==> !MovesTransaction(steps[0]) && NoneMoves(steps[1..]) by {
        assert steps == [steps[0]] + steps[1..];
      }
      TransactionMovesOn(Apply(s, steps[0], d), id, steps[1..], d);
    }
  }

  function Edited(config: Config, edit: Step): Config
    requires edit.AddGroup? || edit.RemoveGroup?
  {
    if edit.AddGroup? then Put(config, edit.key, edit.group) else Erase(config, edit.key)
  }

  /** An addition or removal, from the fetch of the transaction to the edit of what was fetched, with anything in
      between: it changes the transaction if no commit was handed over, no clear finished and no reload came between,
      and otherwise leaves the transaction as it is. */
  lemma EditReachesTransactionIff(s: State, before: seq<Step>, c: nat, during: seq<Step>, edit: Step, d: Digest)
    requires Initial(s) && IsRun(s, before, d) && Enabled(Final(s, before, d), Fetch(c), d)
    requires IsRun(Apply(Final(s, before, d), Fetch(c), d), during, d)
    requires forall step :: step in during ==> !Finishes(step, c)
    requires (edit.AddGroup? || edit.RemoveGroup?) && edit.c == c
    ensures var u := Final(Apply(Final(s, before, d), Fetch(c), d), during, d);
            && Inv(u) && Enabled(u, edit, d)
            && var r := Apply(u, edit, d);
              && r.transaction == u.transaction
              && r.objects[r.transaction] ==
                 if NoneMoves(during) then Edited(u.objects[u.transaction], edit) else u.objects[u.transaction]
  {
    RunKeepsInv(s, before, d);
    var t := Final(s, before, d);
    StepKeepsInv(t, Fetch(c), d);
    var f := Apply(t, Fetch(c), d);
    BusyClientStays(f, c, during, d);
    TransactionMovesOn(f, t.transaction, during, d);
    var u := Final(f, during, d);
    assert ClientOk(u, u.clients[c]);
  }

  /** In terms of lookups: an edit that reaches the transaction changes its own group and no other. */
  lemma EditedLookup(config: Config, edit: Step, k: string)
    requires (edit.AddGroup? || edit.RemoveGroup?) && Sorted(config)
    ensures Sorted(Edited(config, edit))
    ensures Find(Edited(config, edit), k) ==
            if k != edit.key then Find(config, k) else if edit.AddGroup? then Some(edit.group) else None
  {
    if edit.AddGroup? {
      PutSorted(config, edit.key, edit.group);
      FindAfterPut(config, edit.key, edit.group, k);
    } else {
      EraseSorted(config, edit.key);
      FindAfterErase(config, edit.key, k);
    }
  }

  predicate AllSorted(s: State) { forall i :: 0 <= i < |s.objects| ==> Sorted(s.objects[i]) }

  /** Every configuration object of every run keeps its keys sorted and unique. */
  lemma {:induction false} RunKeepsSorted(s: State, steps: seq<Step>, d: Digest)
    requires AllSorted(s) && IsRun(s, steps, d)
    requires forall step :: step in steps && step.Reload? ==> Sorted(step.config)
    ensures AllSorted(Final(s, steps, d))
    decreases |steps|
  {
    if steps != [] {
      assert steps[0] in steps && forall step :: step in steps[1..] ==> step in steps;
      StepKeepsSorted(s, steps[0], d);
      RunKeepsSorted(Apply(s, steps[0], d), steps[1..], d);
    }
  }

  lemma StepKeepsSorted(s: State, step: Step, d: Digest)
    requires AllSorted(s) && Enabled(s, step, d) && (step.Reload? ==> Sorted(step.config))
    ensures AllSorted(Apply(s, step, d))
  {
    match step {
      case AddGroup(c, key, g) => PutSorted(s.objects[s.clients[c].id], key, g);
      case RemoveGroup(c, key) => EraseSorted(s.objects[s.clients[c].id], key);
      case _ =>
    }
  }

  /** A client that fetched before another's commit went through edits an object nobody will read. */
  lemma EditLostInCommit(s: State, key: string, g: Group, d: Digest)
    requires Initial(s) && |s.clients| > 0 && Find(s.objects[1], key) == None
    ensures var h := HashOf(d, s.objects[s.transaction]);
            var steps := [Fetch(0), BeginCommit(h), Accept, HandOver, Install, AddGroup(0, key, g)];
            && IsRun(s, steps, d)
            && var t := Final(s, steps, d);
              && t.transaction < |t.objects| && t.running < |t.objects|
              && Find(t.objects[t.transaction], key) == None && Find(t.objects[t.running], key) == None
  {
    var h := HashOf(d, s.objects[1]);
    var s1 := Apply(s, Fetch(0), d);
    var s2 := Apply(s1, BeginCommit(h), d);
    var s3 := Apply(s2, Accept, d);
    var s4 := Apply(s3, HandOver, d);
    var s5 := Apply(s4, Install, d);
    var s6 := Apply(s5, AddGroup(0, key, g), d);
    SixSteps(s, Fetch(0), BeginCommit(h), Accept, HandOver, Install, AddGroup(0, key, g), d, s1, s2, s3, s4, s5, s6);
  }

  /** Nobody can change the object any more: it is not the transaction and no client is about to edit it. */
  predicate Frozen(s: State, id: Id)
  {
    id < |s.objects| && id != s.transaction && forall c :: 0 <= c < |s.clients| ==> s.clients[c] != Editing(id)
  }

  /** An object nobody can change any more stays as it is. */
  lemma {:induction false} FrozenForGood(s: State, id: Id, steps: seq<Step>, d: Digest)
    requires Frozen(s, id) && IsRun(s, steps, d)
    ensures var t := Final(s, steps, d); Frozen(t, id) && t.objects[id] == s.objects[id]
    decreases |steps|
  {
    if steps != [] {
      var r := Apply(s, steps[0], d);
      assert Frozen(r, id) && r.objects[id] == s.objects[id];
      FrozenForGood(r, id, steps[1..], d);
    }
  }

  lemma RunningIsFrozen(s: State)
    requires Inv(s)
    ensures Frozen(s, s.running)
  {
    forall c | 0 <= c < |s.clients| ensures s.clients[c] != Editing(s.running) { assert ClientOk(s, s.clients[c]); }
  }

  /** A configuration that has once been running never changes again, even after it was replaced. */
  lemma RunningConfigNeverChanges(s: State, before: seq<Step>, steps: seq<Step>, d: Digest)
    requires Initial(s) && IsRun(s, before, d) && IsRun(Final(s, before, d), steps, d)
    ensures var t, u := Final(s, before, d), Final(Final(s, before, d), steps, d);
            Inv(t) && t.running < |u.objects| && u.objects[t.running] == Running(t)
  {
    RunKeepsInv(s, before, d);
    RunningIsFrozen(Final(s, before, d));
    FrozenForGood(Final(s, before, d), Final(s, before, d).running, steps, d);
  }

  /** Clearing, with anything between its two steps, makes the transaction a copy of what was running at the first; so
      it restores the running configuration if and only if that has the same contents at the second. */
  lemma ClearRestoresRunningIff(s: State, before: seq<Step>, c: nat, during: seq<Step>, d: Digest)
    requires Initial(s) && IsRun(s, before, d) && Enabled(Final(s, before, d), BeginClear(c), d)
    requires IsRun(Apply(Final(s, before, d), BeginClear(c), d), during, d)
    requires forall step :: step in during ==> !Finishes(step, c)
    ensures var t := Final(s, before, d);
            var u := Final(Apply(t, BeginClear(c), d), during, d);
            && Inv(t) && Inv(u) && Enabled(u, EndClear(c), d)
            && var r := Apply(u, EndClear(c), d);
              && Inv(r) && r.objects[r.transaction] == Running(t)
              && (r.objects[r.transaction] == Running(r) <==> Running(u) == Running(t))
  {
    RunKeepsInv(s, before, d);
    var t := Final(s, before, d);
    StepKeepsInv(t, BeginClear(c), d);
    var b := Apply(t, BeginClear(c), d);
    RunningIsFrozen(b);
    FrozenForGood(b, t.running, during, d);
    BusyClientStays(b, c, during, d);
    var u := Final(b, during, d);
    StepKeepsInv(u, EndClear(c), d);
    StepKeepsRunning(u, EndClear(c), d);
  }

  /** In particular it does whenever nothing is installed in between. */
  lemma ClearRestoresRunning(s: State, before: seq<Step>, c: nat, during: seq<Step>, d: Digest)
    requires Initial(s) && IsRun(s, before, d) && Enabled(Final(s, before, d), BeginClear(c), d)
    requires IsRun(Apply(Final(s, before, d), BeginClear(c), d), during, d)
    requires forall step :: step in during ==> !Finishes(step, c) && !Replaces(step)
    ensures var u := Final(Apply(Final(s, before, d), BeginClear(c), d), during, d);
            && Enabled(u, EndClear(c), d)
            && var r := Apply(u, EndClear(c), d);
              Inv(r) && r.objects[r.transaction] == Running(r)
  {
    ClearRestoresRunningIff(s, before, c, during, d);
    var t := Final(s, before, d);
    StepKeepsInv(t, BeginClear(c), d);
    RunKeepsRunning(Apply(t, BeginClear(c), d), during, d);
  }

  /** If a reload comes between, the clear brings back the replaced configuration. */
  lemma ClearCanReviveOldConfig(s: State, config: Config, d: Digest)
    requires Initial(s) && |s.clients| > 0 && config != s.objects[0]
    ensures var steps := [BeginClear(0), Reload(config), EndClear(0)];
            && IsRun(s, steps, d)
            && var t := Final(s, steps, d);
              && t.running < |t.objects| && t.transaction < |t.objects|
              && t.objects[t.running] == config && t.objects[t.transaction] == s.objects[0]
  {
    var a, b, c := BeginClear(0), Reload(config), EndClear(0);
    var s1 := Apply(s, a, d);
    var s2 := Apply(s1, b, d);
    Cons(s2, c, [], d);
    Cons(s1, b, [c], d);
    Cons(s, a, [b, c], d);
    assert [c] + [] == [c] && [b] + [c] == [b, c] && [a] + [b, c] == [a, b, c];
  }

  // ----- clients and commits come to an end -----

  predicate StepOfClient(step: Step, c: nat)
  {
    match step
    case Fetch(b) => b == c
    case AddGroup(b, _, _) => b == c
    case RemoveGroup(b, _) => b == c
    case BeginClear(b) => b == c
    case EndClear(b) => b == c
    case _ => false
  }

  /** A client that has made its edit, or finished its clear, can only fetch or clear next: every further edit needs a
      fetch of its own, whatever the others do meanwhile. */
  lemma OneEditPerFetch(s: State, c: nat, last: Step, others: seq<Step>, next: Step, d: Digest)
    requires StepOfClient(last, c) && (IsEdit(last) || last.EndClear?) && Enabled(s, last, d)
    requires IsRun(Apply(s, last, d), others, d) && forall step :: step in others ==> !StepOfClient(step, c)
    requires Enabled(Final(Apply(s, last, d), others, d), next, d) && StepOfClient(next, c)
    ensures next == Fetch(c) || next == BeginClear(c)
  {
    StaysAway(Apply(s, last, d), others, c, d);
  }

  lemma {:induction false} StaysAway(s: State, steps: seq<Step>, c: nat, d: Digest)
    requires c < |s.clients| && s.clients[c] == Away && IsRun(s, steps, d)
    requires forall step :: step in steps ==> !StepOfClient(step, c)
    ensures var t := Final(s, steps, d); c < |t.clients| && t.clients[c] == Away
    decreases |steps|
  {
    if steps != [] {
      assert steps[0] in steps && forall step :: step in steps[1..] ==> step in steps;
      StaysAway(Apply(s, steps[0], d), steps[1..], c, d);
    }
  }

  /** Until it hands over, a commit can be given up, which leaves everything else as it is; after that it can only be
      finished. */
  lemma CommitCanEnd(s: State, steps: seq<Step>, d: Digest)
    requires Initial(s) && IsRun(s, steps, d)
    ensures var t := Final(s, steps, d);
            && (Enabled(t, Fail, d) <==> t.commit != NoCommit && !t.commit.Handed?)
            && (Enabled(t, Fail, d) ==> Apply(t, Fail, d) == t.(commit := NoCommit))
            && (t.commit.Handed? ==> Enabled(t, Install, d) && Apply(t, Install, d).commit == NoCommit)
  {
  }

  /** And a commit under the right hash can be carried through, alone, from its beginning to its installation. */
  lemma RightHashCommits(s: State, steps: seq<Step>, d: Digest)
    requires Initial(s) && IsRun(s, steps, d) && Final(s, steps, d).commit == NoCommit
    ensures var t := Final(s, steps, d);
            Inv(t) && CommitsAlone(t, HashOf(d, t.objects[t.transaction]), d)
  {
    RunKeepsInv(s, steps, d);
    var t := Final(s, steps, d);
    var h := HashOf(d, t.objects[t.transaction]);
    var a := Apply(t, BeginCommit(h), d);
    assert a.objects[a.commit.id] == t.objects[t.transaction];
    var b := Apply(a, Accept, d);
    var c := Apply(b, HandOver, d);
    FirstThen(c, Install, [], d);
    assert [Install] + [] == [Install];
    FirstThen(b, HandOver, [Install], d);
    FirstThen(a, Accept, [HandOver] + [Install], d);
    FirstThen(t, BeginCommit(h), [Accept] + ([HandOver] + [Install]), d);
  }

  /** The four steps of a commit are a run, after which the transaction's contents run and are in the next transaction,
      as two objects. */
  predicate CommitsAlone(t: State, h: Hash, d: Digest)
  {
    var commit := [BeginCommit(h)] + ([Accept] + ([HandOver] + [Install]));
    && t.transaction < |t.objects| && IsRun(t, commit, d)
    && var r := Final(t, commit, d);
       && r.running < |r.objects| && r.objects[r.running] == t.objects[t.transaction]
       && r.transaction < |r.objects| && r.objects[r.transaction] == t.objects[t.transaction]
       && r.transaction != r.running && r.commit == NoCommit && r.clients == t.clients
  }

  lemma FirstThen(s: State, step: Step, rest: seq<Step>, d: Digest)
    requires Enabled(s, step, d) && IsRun(Apply(s, step, d), rest, d)
    ensures IsRun(s, [step] + rest, d) && Final(s, [step] + rest, d) == Final(Apply(s, step, d), rest, d)
  {
    assert ([step] + rest)[1..] == rest;
  }
}
