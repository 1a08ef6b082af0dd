/**
 The write queue between check threads and the storage commit thread.

 Producers push updates and the commit thread takes them, each inside a section of the queue's spin
 lock.  The queue itself is plain shared memory: a push reads the queue and then writes it back, and a
 take tests the size, reads the front, and then reads and writes the queue to remove it.  Each of these is a step of
 its own, so it is only the lock that keeps them apart.  The last part is the loop that empties the two queues
 when the store is closed.
 */
module StoreQueue {
  import Lock = SpinLock

  type ThreadId = Lock.ThreadId

  const COMMITTER: ThreadId := 0

  type ProducerId = p: ThreadId | p != COMMITTER witness 1

  datatype Update = Update(producer: ProducerId, payload: string)

  datatype ProducerPc =
    | Outside
    | Entered                             // past the lock
    | Loaded(copy: seq<Update>)           // has read the queue
    | Stored                              // has written it back with its update

  /** What a producer still has to queue, and where it is. */
  datatype Producer = Producer(todo: seq<Update>, pc: ProducerPc)

  datatype CommitPc =
    | Waiting
    | Inside                              // past the lock
    | SawNone                             // the size was zero
    | SawSome                             // it was not
    | Fronted(u: Update)                  // has copied the front
    | Popping(u: Update, copy: seq<Update>)
    | Popped(u: Update)
    | Applying(u: Update)                 // has released the lock

  datatype State = State(
    lock: Lock.Bare,
    queue: seq<Update>,
    producers: map<ProducerId, Producer>,
    pc: CommitPc,
    committed: seq<Update>)

  datatype Step =
    | ProducerLock(p: ProducerId)
    | ProducerLoad(p: ProducerId)
    | ProducerStore(p: ProducerId)
    | ProducerUnlock(p: ProducerId)
    | CommitLock
    | CommitTest
    | CommitFront
    | CommitLoad
    | CommitPop
    | CommitUnlock
    | CommitApply

  predicate Enabled(s: State, step: Step)
  {
    match step
    case ProducerLock(p) => p in s.producers && s.producers[p].pc == Outside && s.producers[p].todo != []
    case ProducerLoad(p) => p in s.producers && s.producers[p].pc == Entered
    case ProducerStore(p) => p in s.producers && s.producers[p].pc.Loaded? && s.producers[p].todo != []
    case ProducerUnlock(p) => p in s.producers && s.producers[p].pc == Stored
    case CommitLock => s.pc == Waiting
    case CommitTest => s.pc == Inside
    case CommitFront => s.pc == SawSome && s.queue != []
    case CommitLoad => s.pc.Fronted?
    case CommitPop => s.pc.Popping? && s.pc.copy != []
    case CommitUnlock => s.pc == SawNone || s.pc.Popped?
    case CommitApply => s.pc.Applying?
  }

  function Moved(s: State, p: ProducerId, pc: ProducerPc): State
    requires p in s.producers
  {
    s.(producers := s.producers[p := s.producers[p].(pc := pc)])
  }

  /** Does a thread that tries the lock get in?  Without the lock, always. */
  predicate Admits(s: State, guarded: bool) { !guarded || !s.lock.locked }

  function Acquire(s: State, tid: ThreadId, guarded: bool): State
  {
    if guarded then s.(lock := Lock.BareApply(s.lock, Lock.TestAndSet(tid))) else s
  }

  function Release(s: State, tid: ThreadId, guarded: bool): State
  {
    if guarded then s.(lock := Lock.BareApply(s.lock, Lock.Clear(tid))) else s
  }

  /** One atomic action.  `guarded` says whether the sections take the spin lock, as they do in the program. */
  function Apply(s: State, step: Step, guarded: bool): State
    requires Enabled(s, step)
  {
    match step
    case ProducerLock(p) =>
      if Admits(s, guarded) then Moved(Acquire(s, p, guarded), p, Entered)
      else Acquire(s, p, guarded)
    case ProducerLoad(p) => Moved(s, p, Loaded(s.queue))
    case ProducerStore(p) =>
      var me := s.producers[p];
      s.(queue := me.pc.copy + [me.todo[0]], producers := s.producers[p := Producer(me.todo[1..], Stored)])
    case ProducerUnlock(p) => Moved(Release(s, p, guarded), p, Outside)
    case CommitLock =>
      if Admits(s, guarded) then Acquire(s, COMMITTER, guarded).(pc := Inside)
      else Acquire(s, COMMITTER, guarded)
    case CommitTest => s.(pc := if s.queue == [] then SawNone else SawSome)
    case CommitFront => s.(pc := Fronted(s.queue[0]))
    case CommitLoad => s.(pc := Popping(s.pc.u, s.queue))
    case CommitPop => s.(queue := s.pc.copy[1..], pc := Popped(s.pc.u))
    case CommitUnlock => Release(s, COMMITTER, guarded).(pc := if s.pc == SawNone then Waiting else Applying(s.pc.u))
    case CommitApply => s.(committed := s.committed + [s.pc.u], pc := Waiting)
  }

  predicate IsRun(s: State, steps: seq<Step>, guarded: bool)
    decreases |steps|
  {
    steps == [] || (Enabled(s, steps[0]) && IsRun(Apply(s, steps[0], guarded), steps[1..], guarded))
  }

  function Final(s: State, steps: seq<Step>, guarded: bool): State
    requires IsRun(s, steps, guarded)
    decreases |steps|
  {
    if steps == [] then s else Final(Apply(s, steps[0], guarded), steps[1..], guarded)
  }

  // ----- the lock -----

  predicate InSection(s: State, tid: ThreadId)
  {
    if tid == COMMITTER then !s.pc.Waiting? && !s.pc.Applying?
    else tid in s.producers && s.producers[tid].pc != Outside
  }

  /** The lock's owners are the threads inside their sections, and there is one exactly when the flag is set. */
  ghost predicate LockInv(s: State)
  {
    Lock.Exclusive(s.lock) && forall tid :: tid in s.lock.owners <==> InSection(s, tid)
  }

  lemma SoleOwner(s: State, a: ThreadId)
    requires LockInv(s) && InSection(s, a)
    ensures s.lock.owners == {a} && s.lock.locked
  {
    assert a in s.lock.owners;
    assert s.lock.owners != {};
    Lock.SingletonOwner(s.lock.owners, a);
  }

  lemma OneInside(s: State, a: ThreadId, b: ThreadId)
    requires LockInv(s) && InSection(s, a) && InSection(s, b)
    ensures a == b
  {
    SoleOwner(s, a);
    SoleOwner(s, b);
  }

  lemma StepKeepsLock(s: State, step: Step)
    requires LockInv(s) && Enabled(s, step)
    ensures LockInv(Apply(s, step, true))
  {
    var r := Apply(s, step, true);
    if step.ProducerUnlock? {
      SoleOwner(s, step.p);
      assert r.lock.owners == {};
    } else if step.CommitUnlock? {
      SoleOwner(s, COMMITTER);
      assert r.lock.owners == {};
    }
    forall tid ensures tid in r.lock.owners <==> InSection(r, tid) {
      assert tid in s.lock.owners <==> InSection(s, tid);
    }
  }

  // ----- what a thread knows inside its section -----

  predicate ProducerKnows(s: State, me: Producer)
  {
    && (me.pc == Entered ==> me.todo != [])
    && (me.pc.Loaded? ==> me.pc.copy == s.queue && me.todo != [])
  }

  predicate CommitterKnows(s: State)
  {
    match s.pc
    case SawSome => s.queue != []
    case Fronted(u) => s.queue != [] && s.queue[0] == u
    case Popping(u, copy) => copy == s.queue && s.queue != [] && s.queue[0] == u
    case _ => true
  }

  predicate Knows(s: State)
  {
    CommitterKnows(s) && forall p :: p in s.producers ==> ProducerKnows(s, s.producers[p])
  }

  /** What is read inside a section stays true there, because every writer of the queue is in one. */
  lemma StepKeepsKnowledge(s: State, step: Step)
    requires LockInv(s) && Knows(s) && Enabled(s, step)
    ensures Knows(Apply(s, step, true))
  {
    var r := Apply(s, step, true);
    if step.ProducerStore? {
      var p := step.p;
      forall q | q in r.producers ensures ProducerKnows(r, r.producers[q]) {
        if q != p && InSection(s, q) { OneInside(s, p, q); }
      }
      if InSection(s, COMMITTER) { OneInside(s, p, COMMITTER); }
    } else if step.CommitPop? {
      forall q | q in r.producers ensures ProducerKnows(r, r.producers[q]) {
        if InSection(s, q) { OneInside(s, q, COMMITTER); }
      }
    } else {
      forall q | q in r.producers ensures ProducerKnows(r, r.producers[q]) {
        assert ProducerKnows(s, s.producers[q]);
      }
    }
  }

  // ----- where the updates are -----

  /** The updates of one producer, in order. */
  function Of(us: seq<Update>, p: ProducerId): seq<Update>
  {
    if us == [] then []
    else
      var n := |us| - 1;
      if us[n].producer == p then Of(us[..n], p) + [us[n]] else Of(us[..n], p)
  }

  lemma OfLast(a: seq<Update>, u: Update, p: ProducerId)
    ensures Of(a + [u], p) == if u.producer == p then Of(a, p) + [u] else Of(a, p)
  {
    assert (a + [u])[..|a|] == a;
  }

  lemma Assoc(a: seq<Update>, b: seq<Update>, u: Update)
    ensures (a + b) + [u] == a + (b + [u])
  {
  }

  lemma {:induction false} OfConcat(a: seq<Update>, b: seq<Update>, p: ProducerId)
    ensures Of(a + b, p) == Of(a, p) + Of(b, p)
  {
    if b == [] {
      assert a + b == a;
    } else {
      var c, u := b[..|b| - 1], b[|b| - 1];
      OfConcat(a, c, p);
      assert b == c + [u];
      Assoc(a, c, u);
      OfLast(a + c, u, p);
      OfLast(c, u, p);
      Assoc(Of(a, p), Of(c, p), u);
    }
  }

  /** Taken from the queue and not yet committed. */
  function InFlight(pc: CommitPc): seq<Update>
  {
    match pc
    case Popped(u) => [u]
    case Applying(u) => [u]
    case _ => []
  }

  /** Everything that has passed through the queue, oldest first. */
  function Passed(s: State): seq<Update>
  {
    s.committed + InFlight(s.pc) + s.queue
  }

  predicate OwnUpdates(us: seq<Update>, p: ProducerId)
  {
    forall i :: 0 <= i < |us| ==> us[i].producer == p
  }

  /** script[p] is what producer p sets out to store. */
  predicate Accounted(s: State, script: map<ProducerId, seq<Update>>)
  {
    && s.producers.Keys == script.Keys
    && (forall p :: p in script ==> OwnUpdates(s.producers[p].todo, p))
    && (forall p :: p in script ==> Of(Passed(s), p) + s.producers[p].todo == script[p])
  }

  ghost predicate Inv(s: State, script: map<ProducerId, seq<Update>>)
  {
    LockInv(s) && Knows(s) && Accounted(s, script)
  }

  lemma PushedUpdates(passed: seq<Update>, todo: seq<Update>, p: ProducerId, q: ProducerId)
    requires todo != [] && todo[0].producer == p
    ensures Of(passed + [todo[0]], q) == if q == p then Of(passed, q) + [todo[0]] else Of(passed, q)
    ensures Of(passed, q) + [todo[0]] + todo[1..] == Of(passed, q) + todo
  {
    OfLast(passed, todo[0], q);
    assert [todo[0]] + todo[1..] == todo;
  }

  lemma StoreAccounts(s: State, p: ProducerId, script: map<ProducerId, seq<Update>>)
    requires Inv(s, script) && Enabled(s, ProducerStore(p))
    ensures Accounted(Apply(s, ProducerStore(p), true), script)
  {
    var r := Apply(s, ProducerStore(p), true);
    var todo := s.producers[p].todo;
    assert ProducerKnows(s, s.producers[p]);
    Assoc(s.committed + InFlight(s.pc), s.queue, todo[0]);
    assert Passed(r) == Passed(s) + [todo[0]];
    forall q | q in script
      ensures OwnUpdates(r.producers[q].todo, q)
      ensures Of(Passed(r), q) + r.producers[q].todo == script[q]
    {
      assert OwnUpdates(s.producers[q].todo, q);
      PushedUpdates(Passed(s), todo, p, q);
    }
  }

  /** Every step but a store leaves what has passed through the queue as it is. */
  lemma StepKeepsPassed(s: State, step: Step)
    requires Knows(s) && Enabled(s, step) && !step.ProducerStore?
    ensures Passed(Apply(s, step, true)) == Passed(s)
  {
    if step.CommitPop? {
      assert [s.queue[0]] + s.queue[1..] == s.queue;
    }
  }

  lemma StepKeepsInv(s: State, step: Step, script: map<ProducerId, seq<Update>>)
    requires Inv(s, script) && Enabled(s, step)
    ensures Inv(Apply(s, step, true), script)
  {
    StepKeepsLock(s, step);
    StepKeepsKnowledge(s, step);
    if step.ProducerStore? {
      StoreAccounts(s, step.p, script);
    } else {
      OtherStepAccounts(s, step, script);
    }
  }

  lemma StepKeepsTodo(s: State, step: Step)
    requires Enabled(s, step) && !step.ProducerStore?
    ensures var r := Apply(s, step, true);
            && r.producers.Keys == s.producers.Keys
            && forall q :: q in s.producers ==> r.producers[q].todo == s.producers[q].todo
  {
  }

  lemma OtherStepAccounts(s: State, step: Step, script: map<ProducerId, seq<Update>>)
    requires Knows(s) && Accounted(s, script) && Enabled(s, step) && !step.ProducerStore?
    ensures Accounted(Apply(s, step, true), script)
  {
    StepKeepsPassed(s, step);
    StepKeepsTodo(s, step);
    SameAccounts(s, Apply(s, step, true), script);
  }

  lemma SameAccounts(s: State, r: State, script: map<ProducerId, seq<Update>>)
    requires Accounted(s, script) && Passed(r) == Passed(s) && r.producers.Keys == s.producers.Keys
    requires forall q :: q in s.producers ==> r.producers[q].todo == s.producers[q].todo
    ensures Accounted(r, script)
  {
  }

  predicate Initial(s: State, script: map<ProducerId, seq<Update>>)
  {
    && s.lock == Lock.Bare(false, {}) && s.queue == [] && s.pc == Waiting && s.committed == []
    && s.producers.Keys == script.Keys
    && (forall p :: p in script ==> s.producers[p] == Producer(script[p], Outside) && OwnUpdates(script[p], p))
  }

  lemma {:induction false} RunKeepsInv(s: State, steps: seq<Step>, script: map<ProducerId, seq<Update>>)
    requires Inv(s, script) && IsRun(s, steps, true)
    ensures Inv(Final(s, steps, true), script)
    decreases |steps|
  {
    if steps != [] {
      StepKeepsInv(s, steps[0], script);
      RunKeepsInv(Apply(s, steps[0], true), steps[1..], script);
    }
  }

  /** Under every interleaving of the guarded sections, what has been committed for a producer is a prefix of what
      it set out to store: nothing twice, nothing out of order, and nothing lost once everything has
      drained.  The front is never read from an empty queue. */
  lemma ExactlyOnceInOrder(s: State, steps: seq<Step>, script: map<ProducerId, seq<Update>>, p: ProducerId)
    requires Initial(s, script) && IsRun(s, steps, true) && p in script
    ensures var t := Final(s, steps, true);
            && p in t.producers
            && Of(t.committed, p) + Of(InFlight(t.pc), p) + Of(t.queue, p) + t.producers[p].todo == script[p]
            && (t.queue == [] && t.pc == Waiting && t.producers[p].todo == [] ==> Of(t.committed, p) == script[p])
            && (t.pc == SawSome ==> Enabled(t, CommitFront))
  {
    RunKeepsInv(s, steps, script);
    var t := Final(s, steps, true);
    OfConcat(t.committed + InFlight(t.pc), t.queue, p);
    OfConcat(t.committed, InFlight(t.pc), p);
  }

  /** In every run at most one thread is inside a section, and the flag is set exactly when one is. */
  lemma OneThreadInside(s: State, steps: seq<Step>, script: map<ProducerId, seq<Update>>, a: ThreadId, b: ThreadId)
    requires Initial(s, script) && IsRun(s, steps, true)
    ensures var t := Final(s, steps, true);
            && (InSection(t, a) && InSection(t, b) ==> a == b)
            && (InSection(t, a) ==> t.lock.locked)
            && (t.lock.locked ==> exists tid :: InSection(t, tid))
  {
    RunKeepsInv(s, steps, script);
    var t := Final(s, steps, true);
    if InSection(t, a) && InSection(t, b) { OneInside(t, a, b); }
    if t.lock.locked {
      var tid :| tid in t.lock.owners;
      assert InSection(t, tid);
    }
  }

  // ----- without the lock -----

  lemma {:induction false} Then(s: State, steps: seq<Step>, step: Step, guarded: bool)
    requires IsRun(s, steps, guarded) && Enabled(Final(s, steps, guarded), step)
    ensures IsRun(s, steps + [step], guarded)
    ensures Final(s, steps + [step], guarded) == Apply(Final(s, steps, guarded), step, guarded)
    decreases |steps|
  {
    if steps == [] {
      assert steps + [step] == [step] && [step][1..] == [];
    } else {
      Then(Apply(s, steps[0], guarded), steps[1..], step, guarded);
      assert (steps + [step])[1..] == steps[1..] + [step];
    }
  }

  /** Two producers whose pushes overlap lose an update. */
  lemma UnguardedPushesLose(s: State, p: ProducerId, q: ProducerId, a: Update, b: Update) returns (steps: seq<Step>)
    requires p != q && Initial(s, map[p := [a], q := [b]])
    ensures IsRun(s, steps, false)
    ensures var t := Final(s, steps, false);
            && p in t.producers && t.producers[p] == Producer([], Outside)
            && q in t.producers && t.producers[q] == Producer([], Outside)
            && t.pc == Waiting && t.queue == [b] && t.committed == []
  {
    steps := [];
    Then(s, steps, ProducerLock(p), false); steps := steps + [ProducerLock(p)];
    Then(s, steps, ProducerLock(q), false); steps := steps + [ProducerLock(q)];
    Then(s, steps, ProducerLoad(p), false); steps := steps + [ProducerLoad(p)];
    Then(s, steps, ProducerLoad(q), false); steps := steps + [ProducerLoad(q)];
    Then(s, steps, ProducerStore(p), false); steps := steps + [ProducerStore(p)];
    Then(s, steps, ProducerStore(q), false); steps := steps + [ProducerStore(q)];
    Then(s, steps, ProducerUnlock(p), false); steps := steps + [ProducerUnlock(p)];
    Then(s, steps, ProducerUnlock(q), false); steps := steps + [ProducerUnlock(q)];
  }

  /** A push that overlaps a take brings the taken update back: it is committed and queued again. */
  lemma UnguardedTakeDoubles(s: State, p: ProducerId, a: Update, b: Update) returns (steps: seq<Step>)
    requires Initial(s, map[p := [a, b]])
    ensures IsRun(s, steps, false)
    ensures var t := Final(s, steps, false);
            t.committed == [a] && t.queue == [a, b] && p in t.producers && t.producers[p].todo == []
  {
    steps := [];
    Then(s, steps, ProducerLock(p), false); steps := steps + [ProducerLock(p)];
    Then(s, steps, ProducerLoad(p), false); steps := steps + [ProducerLoad(p)];
    Then(s, steps, ProducerStore(p), false); steps := steps + [ProducerStore(p)];
    Then(s, steps, ProducerUnlock(p), false); steps := steps + [ProducerUnlock(p)];
    Then(s, steps, ProducerLock(p), false); steps := steps + [ProducerLock(p)];
    Then(s, steps, ProducerLoad(p), false); steps := steps + [ProducerLoad(p)];
    steps := UnguardedTake(s, steps, a);
    Then(s, steps, ProducerStore(p), false); steps := steps + [ProducerStore(p)];
  }

  lemma UnguardedTake(s: State, before: seq<Step>, a: Update) returns (steps: seq<Step>)
    requires IsRun(s, before, false)
    requires Final(s, before, false).pc == Waiting && Final(s, before, false).queue == [a]
    ensures IsRun(s, steps, false)
    ensures var t := Final(s, before, false);
            Final(s, steps, false) == t.(queue := [], committed := t.committed + [a])
  {
    steps := before;
    Then(s, steps, CommitLock, false); steps := steps + [CommitLock];
    Then(s, steps, CommitTest, false); steps := steps + [CommitTest];
    Then(s, steps, CommitFront, false); steps := steps + [CommitFront];
    Then(s, steps, CommitLoad, false); steps := steps + [CommitLoad];
    Then(s, steps, CommitPop, false); steps := steps + [CommitPop];
    Then(s, steps, CommitUnlock, false); steps := steps + [CommitUnlock];
    Then(s, steps, CommitApply, false); steps := steps + [CommitApply];
  }

  // ----- everything can be committed -----

  lemma {:induction false} RunsOn(s: State, a: seq<Step>, b: seq<Step>)
    requires IsRun(s, a, true) && IsRun(Final(s, a, true), b, true)
    ensures IsRun(s, a + b, true) && Final(s, a + b, true) == Final(Final(s, a, true), b, true)
    decreases |a|
  {
    if a == [] {
      assert a + b == b;
    } else {
      RunsOn(Apply(s, a[0], true), a[1..], b);
      assert (a + b)[1..] == a[1..] + b;
    }
  }

  lemma FirstStep(s: State, step: Step, rest: seq<Step>)
    requires Enabled(s, step) && IsRun(Apply(s, step, true), rest, true)
    ensures IsRun(s, [step] + rest, true)
    ensures Final(s, [step] + rest, true) == Final(Apply(s, step, true), rest, true)
  {
    assert ([step] + rest)[1..] == rest;
  }

  /** With the lock free and an update queued, the commit thread's own steps commit the update at the front. */
  lemma FrontIsCommitted(s: State) returns (steps: seq<Step>)
    requires s.lock == Lock.Bare(false, {}) && s.pc == Waiting && s.queue != []
    ensures IsRun(s, steps, true)
    ensures Final(s, steps, true) == s.(queue := s.queue[1..], committed := s.committed + [s.queue[0]])
  {
    steps := [];
    Then(s, steps, CommitLock, true); steps := steps + [CommitLock];
    Then(s, steps, CommitTest, true); steps := steps + [CommitTest];
    Then(s, steps, CommitFront, true); steps := steps + [CommitFront];
    Then(s, steps, CommitLoad, true); steps := steps + [CommitLoad];
    Then(s, steps, CommitPop, true); steps := steps + [CommitPop];
    Then(s, steps, CommitUnlock, true); steps := steps + [CommitUnlock];
    Then(s, steps, CommitApply, true); steps := steps + [CommitApply];
    assert Final(s, steps, true).lock == s.lock;
  }

  /** With the lock free, a producer's own steps put its next update at the end of the queue. */
  lemma NextIsQueued(s: State, p: ProducerId) returns (steps: seq<Step>)
    requires s.lock == Lock.Bare(false, {}) && p in s.producers
    requires s.producers[p].pc == Outside && s.producers[p].todo != []
    ensures IsRun(s, steps, true)
    ensures var todo := s.producers[p].todo;
            Final(s, steps, true) ==
            s.(queue := s.queue + [todo[0]], producers := s.producers[p := Producer(todo[1..], Outside)])
  {
    steps := [];
    Then(s, steps, ProducerLock(p), true); steps := steps + [ProducerLock(p)];
    Then(s, steps, ProducerLoad(p), true); steps := steps + [ProducerLoad(p)];
    Then(s, steps, ProducerStore(p), true); steps := steps + [ProducerStore(p)];
    Then(s, steps, ProducerUnlock(p), true); steps := steps + [ProducerUnlock(p)];
    assert Final(s, steps, true).lock == s.lock;
    assert Final(s, steps, true).producers ==
           s.producers[p := Producer(s.producers[p].todo[1..], Outside)];
  }

  function CommitStage(pc: CommitPc): nat
  {
    match pc
    case Waiting => 0
    case Applying(_) => 1
    case Popped(_) => 2
    case SawNone => 2
    case Popping(_, _) => 3
    case Fronted(_) => 4
    case SawSome => 5
    case Inside => 6
  }

  /** Inside its section the commit thread always has a next step. */
  function CommitNext(pc: CommitPc): Step
    requires pc != Waiting
  {
    match pc
    case Inside => CommitTest
    case SawSome => CommitFront
    case Fronted(_) => CommitLoad
    case Popping(_, _) => CommitPop
    case Popped(_) => CommitUnlock
    case SawNone => CommitUnlock
    case Applying(_) => CommitApply
  }

  lemma {:induction false} CommitterFinishes(s: State, script: map<ProducerId, seq<Update>>) returns (steps: seq<Step>)
    requires Inv(s, script)
    ensures IsRun(s, steps, true) && Final(s, steps, true).pc == Waiting
    ensures Inv(Final(s, steps, true), script)
    decreases CommitStage(s.pc)
  {
    if s.pc == Waiting {
      steps := [];
    } else {
      var step := CommitNext(s.pc);
      StepKeepsInv(s, step, script);
      var rest := CommitterFinishes(Apply(s, step, true), script);
      FirstStep(s, step, rest);
      steps := [step] + rest;
    }
  }

  function ProducerStage(pc: ProducerPc): nat
  {
    match pc
    case Outside => 0
    case Stored => 1
    case Loaded(_) => 2
    case Entered => 3
  }

  function ProducerNext(p: ProducerId, pc: ProducerPc): Step
    requires pc != Outside
  {
    match pc
    case Entered => ProducerLoad(p)
    case Loaded(_) => ProducerStore(p)
    case Stored => ProducerUnlock(p)
  }

  lemma ProducerMoves(s: State, p: ProducerId, script: map<ProducerId, seq<Update>>)
    requires Inv(s, script) && p in s.producers && s.producers[p].pc != Outside
    ensures var step := ProducerNext(p, s.producers[p].pc);
            && Enabled(s, step)
            && var r := Apply(s, step, true);
               && r.pc == s.pc && r.producers.Keys == s.producers.Keys
               && ProducerStage(r.producers[p].pc) < ProducerStage(s.producers[p].pc)
               && forall q :: q in s.producers && q != p ==> r.producers[q] == s.producers[q]
  {
    assert ProducerKnows(s, s.producers[p]);
  }

  lemma {:induction false} ProducerFinishes(s: State, p: ProducerId, script: map<ProducerId, seq<Update>>)
    returns (steps: seq<Step>)
    requires Inv(s, script) && p in s.producers && s.pc == Waiting
    ensures IsRun(s, steps, true)
    ensures var r := Final(s, steps, true);
            && Inv(r, script) && r.pc == Waiting && r.producers.Keys == s.producers.Keys
            && r.producers[p].pc == Outside
            && forall q :: q in s.producers && q != p ==> r.producers[q] == s.producers[q]
    decreases ProducerStage(s.producers[p].pc)
  {
    if s.producers[p].pc == Outside {
      steps := [];
    } else {
      var step := ProducerNext(p, s.producers[p].pc);
      ProducerMoves(s, p, script);
      StepKeepsInv(s, step, script);
      var rest := ProducerFinishes(Apply(s, step, true), p, script);
      FirstStep(s, step, rest);
      steps := [step] + rest;
    }
  }

  lemma NobodyInside(s: State, script: map<ProducerId, seq<Update>>)
    requires Inv(s, script) && s.pc == Waiting
    requires forall q :: q in s.producers ==> s.producers[q].pc == Outside
    ensures s.lock == Lock.Bare(false, {})
  {
    assert forall tid :: !InSection(s, tid);
    assert s.lock.owners == {};
  }

  /** Whoever is inside a section gets out of it by its own steps. */
  lemma SectionsEnd(s: State, script: map<ProducerId, seq<Update>>) returns (steps: seq<Step>)
    requires Inv(s, script)
    ensures IsRun(s, steps, true)
    ensures var r := Final(s, steps, true);
            && Inv(r, script) && r.pc == Waiting && r.lock == Lock.Bare(false, {})
            && forall q :: q in r.producers ==> r.producers[q].pc == Outside
  {
    steps := CommitterFinishes(s, script);
    var t := Final(s, steps, true);
    if p :| p in t.producers && t.producers[p].pc != Outside {
      forall q | q in t.producers && q != p ensures t.producers[q].pc == Outside {
        if t.producers[q].pc != Outside { OneInside(t, p, q); }
      }
      var more := ProducerFinishes(t, p, script);
      RunsOn(s, steps, more);
      steps := steps + more;
    }
    NobodyInside(Final(s, steps, true), script);
  }

  /** Nobody is in a section, and the lock is free. */
  predicate Quiet(s: State)
  {
    && s.pc == Waiting && s.lock == Lock.Bare(false, {})
    && forall q :: q in s.producers ==> s.producers[q].pc == Outside
  }

  lemma {:induction false} AllIsQueued(s: State, p: ProducerId) returns (steps: seq<Step>)
    requires Quiet(s) && p in s.producers
    ensures IsRun(s, steps, true)
    ensures var r := Final(s, steps, true); Quiet(r) && p in r.producers && r.producers[p].todo == []
    decreases |s.producers[p].todo|
  {
    steps := [];
    if s.producers[p].todo != [] {
      steps := NextIsQueued(s, p);
      var more := AllIsQueued(Final(s, steps, true), p);
      RunsOn(s, steps, more);
      steps := steps + more;
    }
  }

  lemma {:induction false} QueueIsCommitted(s: State) returns (steps: seq<Step>)
    requires Quiet(s)
    ensures IsRun(s, steps, true)
    ensures var r := Final(s, steps, true); Quiet(r) && r.queue == [] && r.producers == s.producers
    decreases |s.queue|
  {
    steps := [];
    if s.queue != [] {
      steps := FrontIsCommitted(s);
      var more := QueueIsCommitted(Final(s, steps, true));
      RunsOn(s, steps, more);
      steps := steps + more;
    }
  }

  /** No run is ever stuck: whatever has happened, it can go on so that everything a producer set out to store is
      committed, in its order. */
  lemma EverythingCanBeCommitted(s: State, steps: seq<Step>, script: map<ProducerId, seq<Update>>, p: ProducerId)
    returns (more: seq<Step>)
    requires Initial(s, script) && IsRun(s, steps, true) && p in script
    ensures IsRun(s, steps + more, true) && Of(Final(s, steps + more, true).committed, p) == script[p]
  {
    RunKeepsInv(s, steps, script);
    var t := Final(s, steps, true);
    more := SectionsEnd(t, script);
    var queue := AllIsQueued(Final(t, more, true), p);
    RunsOn(t, more, queue);
    more := more + queue;
    var commit := QueueIsCommitted(Final(t, more, true));
    RunsOn(t, more, commit);
    more := more + commit;
    RunsOn(s, steps, more);
    ExactlyOnceInOrder(s, steps + more, script, p);
  }

  // ----- closing the store -----

  /** A queued update as the commit functions see it: does the configuration still know its group? */
  type Known = bool

  /** One call of a commit function: take one update; false when there was none, and also when there
      was one for a group that is no longer configured. */
  method CommitOne(q: seq<Known>) returns (rest: seq<Known>, progress: bool)
    ensures q == [] ==> rest == [] && !progress
    ensures q != [] ==> rest == q[1..] && progress == q[0]
  {
    if q == [] {
      return [], false;
    }
    return q[1..], q[0];
  }

  /** Take updates, health checks first, until a pass makes no progress on either queue. */
  method Drain(checks: seq<Known>, aux: seq<Known>) returns (checksLeft: seq<Known>, auxLeft: seq<Known>)
    ensures (checksLeft, auxLeft) == Drained(checks, aux)
  {
    checksLeft, auxLeft := checks, aux;
    var progress := true;
    while progress
      invariant progress ==> Drained(checksLeft, auxLeft) == Drained(checks, aux)
      invariant !progress ==> (checksLeft, auxLeft) == Drained(checks, aux)
      decreases |checksLeft| + |auxLeft|, progress
    {
      checksLeft, progress := CommitOne(checksLeft);
      if !progress {
        auxLeft, progress := CommitOne(auxLeft);
      }
    }
  }

  function Drained(checks: seq<Known>, aux: seq<Known>): (seq<Known>, seq<Known>)
    decreases |checks| + |aux|
  {
    if checks != [] && checks[0] then Drained(checks[1..], aux)
    else
      var c := if checks == [] then [] else checks[1..];
      if aux == [] then (c, [])
      else if aux[0] then Drained(c, aux[1..])
      else (c, aux[1..])
  }

  function Unknowns(q: seq<Known>): nat
  {
    if q == [] then 0 else (if q[0] then 0 else 1) + Unknowns(q[1..])
  }

  /** How many leading updates belong to configured groups. */
  function KnownPrefix(q: seq<Known>): nat
  {
    if q == [] || !q[0] then 0 else 1 + KnownPrefix(q[1..])
  }

  predicate AllButLastKnown(q: seq<Known>)
  {
    forall i :: 0 <= i < |q| - 1 ==> q[i]
  }

  /** The condition under which closing the store writes out everything that is queued. */
  predicate DrainsAll(checks: seq<Known>, aux: seq<Known>)
  {
    && AllButLastKnown(aux)
    && (|| Unknowns(checks) <= KnownPrefix(aux)
        || (Unknowns(checks) == KnownPrefix(aux) + 1 && !checks[|checks| - 1]))
  }

  lemma {:induction false} NoUnknowns(q: seq<Known>)
    ensures Unknowns(q) <= |q|
    ensures Unknowns(q) == 0 <==> forall i :: 0 <= i < |q| ==> q[i]
  {
    if q != [] {
      NoUnknowns(q[1..]);
      assert q == [q[0]] + q[1..];
    }
  }

  lemma AuxTail(q: seq<Known>)
    requires q != [] && q[0]
    ensures AllButLastKnown(q) <==> AllButLastKnown(q[1..])
    ensures KnownPrefix(q) == 1 + KnownPrefix(q[1..])
  {
    if AllButLastKnown(q[1..]) {
      forall i | 0 <= i < |q| - 1 ensures q[i] {
        if i > 0 { assert q[1..][i - 1] == q[i]; }
      }
    }
    if AllButLastKnown(q) {
      forall i | 0 <= i < |q[1..]| - 1 ensures q[1..][i] { assert q[1..][i] == q[i + 1]; }
    }
  }

  /** Closing the store loses queued updates for unconfigured groups' sake in exactly the cases excluded here. */
  lemma {:induction false} DrainLeavesNothingIff(checks: seq<Known>, aux: seq<Known>)
    ensures Drained(checks, aux) == ([], []) <==> DrainsAll(checks, aux)
    decreases |checks| + |aux|
  {
    NoUnknowns(checks);
    if checks != [] && checks[0] {
      DrainLeavesNothingIff(checks[1..], aux);
      NoUnknowns(checks[1..]);
    } else {
      var c := if checks == [] then [] else checks[1..];
      NoUnknowns(c);
      if aux != [] && aux[0] {
        DrainLeavesNothingIff(c, aux[1..]);
        AuxTail(aux);
      } else if c == [] && checks != [] {
        assert Unknowns(checks) == 1 + Unknowns(c);
      }
    }
  }
}
