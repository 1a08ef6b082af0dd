/**
 The event loop as a step protocol: any number of threads add timeouts while one tracker thread
 sleeps until the earliest of them, fires it and possibly schedules it again.

 Each step is one critical section of the source, so every interleaving of the threads is a run.
 */
module EventLoop {
  import opened TimeoutHeap

  type ThreadId = nat

  const TRACKER: ThreadId := 0
  /** How long the tracker sleeps when nothing is queued, in milliseconds. */
  const EMPTY_TIMEOUT := 300000

  /** How the tracker last computed its deadline. */
  datatype Basis = FromQueue | FromEmpty(at: int)

  datatype TrackerPc =
    | Starting                             // about to look at the queue for the first time
    | Outer                                // testing the outer loop condition
    | Inner                                // testing the inner loop condition
    | ToSleep                              // about to take the sleep lock
    | Sleeping                             // inside the timed wait
    | Awake                                // about to look at the queue again
    | Firing(at: int, stopping: bool)      // about to pop; what the inner test saw
    | Dispatching(fired: Timeout)
    | Dispatched
    | Stopped

  /** One fired timeout with what the tracker knew when it decided to fire. */
  datatype Firing = Fire(t: Timeout, at: int, stopping: bool, basis: Basis)

  datatype State = State(
    queue: multiset<Timeout>,
    wakeup: bool,
    running: bool,
    pending: set<ThreadId>,      // threads that decided to wake the tracker and have not done it yet
    pc: TrackerPc,
    next: int,
    basis: Basis,
    added: multiset<Timeout>,    // by other threads
    readded: multiset<Timeout>,  // by the tracker
    fired: multiset<Timeout>,
    log: seq<Firing>)

  datatype Step =
    | Add(tid: ThreadId, t: Timeout)
    | Wake(tid: ThreadId)
    | ShutDown(tid: ThreadId)
    | Start(now: int, top: Timeout)
    | TestOuter
    | TestInner(now: int)
    | EnterSleep
    | WaitReturns
    | Look(now: int, top: Timeout)
    | Pop(now: int, top: Timeout)
    | Reschedule(when: int)
    | Forget
    | Finish(now: int, top: Timeout)

  /** The queue is empty or the new timeout is earlier than its top. */
  predicate Preempts(t: Timeout, q: multiset<Timeout>)
  {
    forall u :: u in q ==> t.when < u.when
  }

  /** The critical section of the add functions on the real queue: it is the push of the protocol. */
  method AddTimeout(q: TimeoutQueue, t: Timeout) returns (preempt: bool)
    requires q.Valid()
    modifies q
    ensures q.Valid() && multiset(q.heap) == old(multiset(q.heap)) + multiset{t}
    ensures preempt <==> Preempts(t, old(multiset(q.heap)))
  {
    preempt := false;
    if q.heap == [] {
      preempt := true;
    } else {
      var top := q.Top();
      preempt := t.when < top.when;
    }
    q.Push(t);
  }

  /** What the tracker adds again after firing t: a remote host check comes back as a host-group check of the
      same name, without its host check. */
  function Again(t: Timeout, when: int): Timeout
  {
    if t.kind == RemoteHostCheck then Timeout(RemoteCheck, t.host, "", when) else t.(when := when)
  }

  function Deadline(q: multiset<Timeout>, now: int, top: Timeout): int
  {
    if q == multiset{} then now + EMPTY_TIMEOUT else top.when
  }

  function BasisOf(q: multiset<Timeout>, now: int): Basis
  {
    if q == multiset{} then FromEmpty(now) else FromQueue
  }

  predicate Enabled(s: State, step: Step)
  {
    match step
    case Add(tid, t) => tid != TRACKER && tid !in s.pending
    case Wake(tid) => tid in s.pending
    case ShutDown(tid) => tid != TRACKER && tid !in s.pending
    case Start(_, top) => s.pc == Starting && (s.queue != multiset{} ==> IsEarliest(top, s.queue))
    case TestOuter => s.pc == Outer
    case TestInner(_) => s.pc == Inner
    case EnterSleep => s.pc == ToSleep
    case WaitReturns => s.pc == Sleeping
    case Look(_, top) => s.pc == Awake && (s.queue != multiset{} ==> IsEarliest(top, s.queue))
    case Pop(_, top) => s.pc.Firing? && (s.queue != multiset{} ==> IsEarliest(top, s.queue))
    case Reschedule(_) => s.pc.Dispatching?
    case Forget => s.pc.Dispatching?
    case Finish(_, top) =>
      s.pc == Dispatched && TRACKER !in s.pending && (s.queue != multiset{} ==> IsEarliest(top, s.queue))
  }

  /** The push of one of the add functions, and the decision to wake the tracker afterwards. */
  function Pushed(s: State, tid: ThreadId, t: Timeout): State
  {
    s.(queue := s.queue + multiset{t},
       pending := if Preempts(t, s.queue) then s.pending + {tid} else s.pending)
  }

  function Apply(s: State, step: Step): State
    requires Enabled(s, step)
  {
    match step
    case Add(tid, t) => Pushed(s, tid, t).(added := s.added + multiset{t})
    case Wake(tid) =>
      s.(wakeup := true, pending := s.pending - {tid}, pc := if s.pc == Sleeping then Awake else s.pc)
    case ShutDown(tid) => s.(running := false, pending := s.pending + {tid})
    case Start(now, top) =>
      s.(next := Deadline(s.queue, now, top), basis := BasisOf(s.queue, now), pc := Outer)
    case TestOuter => s.(pc := if s.running then Inner else Stopped)
    case TestInner(now) =>
      s.(pc := if now < s.next && s.running then ToSleep else Firing(now, now < s.next))
    case EnterSleep =>
      if s.wakeup then s.(wakeup := false, pc := Awake) else s.(pc := Sleeping)
    case WaitReturns => s.(pc := Awake)
    case Look(now, top) =>
      if !s.running then s.(pc := Stopped)
      else s.(next := Deadline(s.queue, now, top), basis := BasisOf(s.queue, now), pc := Inner)
    case Pop(now, top) =>
      if s.queue == multiset{} then s.(next := now + EMPTY_TIMEOUT, basis := FromEmpty(now), pc := Outer)
      else s.(queue := s.queue - multiset{top}, fired := s.fired + multiset{top},
              log := s.log + [Fire(top, s.pc.at, s.pc.stopping, s.basis)], pc := Dispatching(top))
    case Reschedule(when) =>
      var t := Again(s.pc.fired, when);
      Pushed(s, TRACKER, t).(readded := s.readded + multiset{t}, pc := Dispatched)
    case Forget => s.(pc := Dispatched)
    case Finish(now, top) =>
      s.(next := Deadline(s.queue, now, top), basis := BasisOf(s.queue, now), pc := Outer)
  }

  /** Nothing has happened yet.  Other threads may add timeouts and wake the tracker before its first look at the
      queue; its deadline is whatever the memory holds. */
  predicate Init(s: State)
  {
    && s.queue == s.added == s.readded == s.fired == multiset{}
    && !s.wakeup && s.running && s.pending == {} && s.pc == Starting && s.log == []
  }

  /** Every sequence of steps the threads can take from s. */
  predicate IsRun(s: State, steps: seq<Step>)
    decreases |steps|
  {
    steps == [] || (Enabled(s, steps[0]) && IsRun(Apply(s, steps[0]), steps[1..]))
  }

  function Final(s: State, steps: seq<Step>): State
    requires IsRun(s, steps)
    decreases |steps|
  {
    if steps == [] then s else Final(Apply(s, steps[0]), steps[1..])
  }

  // ----- invariants -----

  /** The tracker is between computing its deadline and acting on it. */
  predicate HoldsDeadline(pc: TrackerPc)
  {
    pc.Outer? || pc.Inner? || pc.ToSleep? || pc.Sleeping? || pc.Firing?
  }

  predicate DeadlineCovers(s: State)
  {
    forall u :: u in s.queue ==> s.next <= u.when
  }

  predicate WakeInv(s: State)
  {
    && (HoldsDeadline(s.pc) ==> s.wakeup || s.pending != {} || DeadlineCovers(s))
    && (s.pc == Sleeping ==> !s.wakeup)
    && (s.pc == ToSleep || s.pc == Sleeping ==> s.running || s.wakeup || s.pending != {})
    && (TRACKER in s.pending ==> s.pc == Dispatched)
  }

  predicate SomeDue(q: multiset<Timeout>, at: int) { exists u :: u in q && u.when <= at }

  predicate DeadlineInv(s: State)
  {
    && (HoldsDeadline(s.pc) && s.basis == FromQueue ==> SomeDue(s.queue, s.next))
    && (HoldsDeadline(s.pc) && s.basis.FromEmpty? ==> s.next == s.basis.at + EMPTY_TIMEOUT)
    && (s.pc.Firing? ==> s.pc.stopping || s.next <= s.pc.at)
    && (s.pc.Firing? && s.pc.stopping ==> !s.running)
  }

  /** A timeout is fired before its time only while shutting down, or when the tracker found the queue
      empty, set its deadline from the clock, and read a clock at least that much later. */
  predicate NotEarly(f: Firing)
  {
    f.t.when <= f.at || f.stopping || (f.basis.FromEmpty? && f.basis.at + EMPTY_TIMEOUT <= f.at)
  }

  predicate LogInv(s: State)
  {
    && (forall i :: 0 <= i < |s.log| ==> NotEarly(s.log[i]))
    && (forall i :: 0 <= i < |s.log| && s.log[i].stopping ==> !s.running)
  }

  predicate Conserved(s: State)
  {
    && s.added + s.readded == s.fired + s.queue
    && (forall t :: t in s.readded ==> t.kind != RemoteHostCheck)
  }

  predicate Inv(s: State)
  {
    WakeInv(s) && DeadlineInv(s) && LogInv(s) && Conserved(s)
  }

  lemma PushKeepsDeadline(s: State, tid: ThreadId, t: Timeout)
    requires s.wakeup || s.pending != {} || DeadlineCovers(s)
    ensures var r := Pushed(s, tid, t); r.wakeup || r.pending != {} || DeadlineCovers(r)
  {
    if !Preempts(t, s.queue) {
      var u :| u in s.queue && u.when <= t.when;
    }
  }

  lemma AddKeepsWake(s: State, tid: ThreadId, t: Timeout)
    requires WakeInv(s) && Enabled(s, Add(tid, t))
    ensures WakeInv(Apply(s, Add(tid, t)))
  {
    if HoldsDeadline(s.pc) { PushKeepsDeadline(s, tid, t); }
  }

  lemma WakeUpKeepsWake(s: State, tid: ThreadId)
    requires WakeInv(s) && Enabled(s, Wake(tid))
    ensures WakeInv(Apply(s, Wake(tid)))
  {
  }

  lemma DeadlineIsCovered(q: multiset<Timeout>, now: int, top: Timeout)
    requires q != multiset{} ==> IsEarliest(top, q)
    ensures forall u :: u in q ==> Deadline(q, now, top) <= u.when
  {
  }

  predicate ByTracker(step: Step) { !step.Add? && !step.Wake? && !step.ShutDown? }

  predicate WhileWaiting(step: Step)
  {
    step.Start? || step.TestOuter? || step.TestInner? || step.EnterSleep? || step.WaitReturns? || step.Look?
  }

  lemma WaitingKeepsWake(s: State, step: Step)
    requires WakeInv(s) && Enabled(s, step) && WhileWaiting(step)
    ensures WakeInv(Apply(s, step))
  {
    if step.Look? || step.Start? { DeadlineIsCovered(s.queue, step.now, step.top); }
  }

  lemma FiringKeepsWake(s: State, step: Step)
    requires WakeInv(s) && Enabled(s, step) && ByTracker(step) && !WhileWaiting(step)
    ensures WakeInv(Apply(s, step))
  {
    if step.Finish? { DeadlineIsCovered(s.queue, step.now, step.top); }
  }

  lemma StepKeepsWake(s: State, step: Step)
    requires WakeInv(s) && Enabled(s, step)
    ensures WakeInv(Apply(s, step))
  {
    match step {
      case Add(tid, t) => AddKeepsWake(s, tid, t);
      case Wake(tid) => WakeUpKeepsWake(s, tid);
      case ShutDown(tid) =>
      case _ => if WhileWaiting(step) { WaitingKeepsWake(s, step); } else { FiringKeepsWake(s, step); }
    }
  }

  lemma LookedUp(q: multiset<Timeout>, now: int, top: Timeout)
    requires q != multiset{} ==> IsEarliest(top, q)
    ensures BasisOf(q, now) == FromQueue ==> SomeDue(q, Deadline(q, now, top))
    ensures BasisOf(q, now).FromEmpty? ==> Deadline(q, now, top) == BasisOf(q, now).at + EMPTY_TIMEOUT
  {
  }

  lemma AddKeepsDeadline(s: State, tid: ThreadId, t: Timeout)
    requires DeadlineInv(s) && Enabled(s, Add(tid, t))
    ensures DeadlineInv(Apply(s, Add(tid, t)))
  {
    var r := Apply(s, Add(tid, t));
    if HoldsDeadline(s.pc) && s.basis == FromQueue {
      var u :| u in s.queue && u.when <= s.next;
      assert u in r.queue;
    }
  }

  lemma WaitingKeepsDeadline(s: State, step: Step)
    requires DeadlineInv(s) && Enabled(s, step) && WhileWaiting(step)
    ensures DeadlineInv(Apply(s, step))
  {
    if step.Look? || step.Start? { LookedUp(s.queue, step.now, step.top); }
  }

  lemma FiringKeepsDeadline(s: State, step: Step)
    requires DeadlineInv(s) && Enabled(s, step) && ByTracker(step) && !WhileWaiting(step)
    ensures DeadlineInv(Apply(s, step))
  {
    if step.Finish? {
      LookedUp(s.queue, step.now, step.top);
    } else if step.Pop? {
      PopKeepsDeadline(s, step.now, step.top);
    }
  }

  lemma PopKeepsDeadline(s: State, now: int, top: Timeout)
    requires Enabled(s, Pop(now, top))
    ensures DeadlineInv(Apply(s, Pop(now, top)))
  {
  }

  lemma StepKeepsDeadline(s: State, step: Step)
    requires DeadlineInv(s) && Enabled(s, step)
    ensures DeadlineInv(Apply(s, step))
  {
    match step {
      case Add(tid, t) => AddKeepsDeadline(s, tid, t);
      case Wake(tid) =>
      case ShutDown(tid) =>
      case _ => if WhileWaiting(step) { WaitingKeepsDeadline(s, step); } else { FiringKeepsDeadline(s, step); }
    }
  }

  lemma StepKeepsLog(s: State, step: Step)
    requires DeadlineInv(s) && LogInv(s) && Enabled(s, step)
    ensures LogInv(Apply(s, step))
  {
    match step {
      case Pop(now, top) =>
        if s.queue != multiset{} && s.basis == FromQueue {
          var u :| u in s.queue && u.when <= s.next;
        }
      case _ =>
    }
  }

  lemma Fired(f: multiset<Timeout>, q: multiset<Timeout>, t: Timeout)
    requires t in q
    ensures f + multiset{t} + (q - multiset{t}) == f + q
  {
  }

  lemma Queued(a: multiset<Timeout>, b: multiset<Timeout>, f: multiset<Timeout>, q: multiset<Timeout>, t: Timeout)
    requires a + b == f + q
    ensures a + multiset{t} + b == f + (q + multiset{t})
    ensures a + (b + multiset{t}) == f + (q + multiset{t})
  {
    assert a + multiset{t} + b == a + b + multiset{t};
    assert a + (b + multiset{t}) == a + b + multiset{t};
  }

  lemma StepConserves(s: State, step: Step)
    requires Conserved(s) && Enabled(s, step)
    ensures Conserved(Apply(s, step))
  {
    match step {
      case Add(tid, t) => Queued(s.added, s.readded, s.fired, s.queue, t);
      case Reschedule(when) => Queued(s.added, s.readded, s.fired, s.queue, Again(s.pc.fired, when));
      case Pop(now, top) => if s.queue != multiset{} { Fired(s.fired, s.queue, top); }
      case _ =>
    }
  }

  lemma {:induction false} RunKeepsInv(s: State, steps: seq<Step>)
    requires Inv(s) && IsRun(s, steps)
    ensures Inv(Final(s, steps))
    decreases |steps|
  {
    if steps != [] {
      StepKeepsWake(s, steps[0]);
      StepKeepsDeadline(s, steps[0]);
      StepKeepsLog(s, steps[0]);
      StepConserves(s, steps[0]);
      RunKeepsInv(Apply(s, steps[0]), steps[1..]);
    }
  }

  // ----- main results -----

  /** No lost wake-up: a sleeping tracker is due no later than every queued timeout, or some thread is
      already committed to waking it and can do so at once; the same holds for a shutdown request. */
  lemma NoLostWakeup(s: State, steps: seq<Step>)
    requires Init(s) && IsRun(s, steps)
    ensures var t := Final(s, steps);
            t.pc == Sleeping ==>
              || (t.running && DeadlineCovers(t))
              || exists tid :: tid in t.pending && Enabled(t, Wake(tid)) && Apply(t, Wake(tid)).pc == Awake
  {
    RunKeepsInv(s, steps);
    var t := Final(s, steps);
    if t.pc == Sleeping && t.pending != {} {
      var tid :| tid in t.pending;
      assert Enabled(t, Wake(tid));
    }
  }

  /** Every timeout added is still queued or was fired, once for each time it was added.  No remote host
      check ever comes back: those fired or queued are exactly those other threads added. */
  lemma Conservation(s: State, steps: seq<Step>, x: Timeout)
    requires Init(s) && IsRun(s, steps)
    ensures var t := Final(s, steps);
            && t.added[x] + t.readded[x] == t.fired[x] + t.queue[x]
            && (x.kind == RemoteHostCheck ==> t.added[x] == t.fired[x] + t.queue[x])
  {
    RunKeepsInv(s, steps);
    var t := Final(s, steps);
    assert (t.added + t.readded)[x] == (t.fired + t.queue)[x];
  }

  /** Nothing fires before its time unless the tracker had already seen the shutdown when it decided to fire or,
      the queue having been empty, the clock moved by the whole empty timeout between two readings. */
  lemma NoEarlyFiring(s: State, steps: seq<Step>, i: nat)
    requires Init(s) && IsRun(s, steps) && i < |Final(s, steps).log|
    ensures var t, f := Final(s, steps), Final(s, steps).log[i];
            && (f.t.when <= f.at || f.stopping || (f.basis.FromEmpty? && f.basis.at + EMPTY_TIMEOUT <= f.at))
            && (f.stopping ==> !t.running)
  {
    RunKeepsInv(s, steps);
  }

  // ----- due timeouts fire -----

  lemma RunStep(s: State, step: Step, rest: seq<Step>)
    requires Enabled(s, step) && IsRun(Apply(s, step), rest)
    ensures IsRun(s, [step] + rest) && Final(s, [step] + rest) == Final(Apply(s, step), rest)
  {
    assert ([step] + rest)[1..] == rest;
  }

  /** The timeout moved from the queue to the fired ones, and was logged. */
  predicate Fires(s: State, r: State, t: Timeout)
  {
    && r.queue == s.queue - multiset{t} && r.fired == s.fired + multiset{t}
    && |r.log| == |s.log| + 1 && r.log[..|s.log|] == s.log && r.log[|s.log|].t == t
    && r.added == s.added && r.readded == s.readded && r.pc == Dispatching(t)
  }

  /** A running tracker that has woken, with a clock at or past the earliest timeout, fires it. */
  lemma AwakeTrackerFires(s: State, top: Timeout, now: int, later: int, last: int)
    requires s.running && s.pc == Awake && IsEarliest(top, s.queue) && top.when <= later
    ensures var steps := [Look(now, top), TestInner(later), Pop(last, top)];
            IsRun(s, steps) && Fires(s, Final(s, steps), top)
  {
    var a := Apply(s, Look(now, top));
    var b := Apply(a, TestInner(later));
    var c := Apply(b, Pop(last, top));
    RunStep(b, Pop(last, top), []);
    RunStep(a, TestInner(later), [Pop(last, top)]);
    RunStep(s, Look(now, top), [TestInner(later), Pop(last, top)]);
    assert [Pop(last, top)] + [] == [Pop(last, top)];
    assert [TestInner(later)] + [Pop(last, top)] == [TestInner(later), Pop(last, top)];
    assert [Look(now, top)] + [TestInner(later), Pop(last, top)] == [Look(now, top), TestInner(later), Pop(last, top)];
  }

  /** So does one that sleeps, since its wait can return. */
  lemma SleepingTrackerFires(s: State, top: Timeout, now: int, later: int, last: int)
    requires s.running && s.pc == Sleeping && IsEarliest(top, s.queue) && top.when <= later
    ensures var steps := [WaitReturns] + [Look(now, top), TestInner(later), Pop(last, top)];
            IsRun(s, steps) && Fires(s, Final(s, steps), top)
  {
    AwakeTrackerFires(Apply(s, WaitReturns), top, now, later, last);
    RunStep(s, WaitReturns, [Look(now, top), TestInner(later), Pop(last, top)]);
  }

  /** And one at its inner test, if the deadline has passed. */
  lemma TrackerAtInnerFires(s: State, top: Timeout, now: int, last: int)
    requires s.running && s.pc == Inner && IsEarliest(top, s.queue) && s.next <= now
    ensures var steps := [TestInner(now)] + [Pop(last, top)];
            IsRun(s, steps) && Fires(s, Final(s, steps), top)
  {
    var b := Apply(s, TestInner(now));
    RunStep(b, Pop(last, top), []);
    assert [Pop(last, top)] + [] == [Pop(last, top)];
    RunStep(s, TestInner(now), [Pop(last, top)]);
  }

  /** Or at its outer one. */
  lemma TrackerPastDeadlineFires(s: State, top: Timeout, now: int, last: int)
    requires s.running && s.pc == Outer && IsEarliest(top, s.queue) && s.next <= now
    ensures var steps := [TestOuter] + ([TestInner(now)] + [Pop(last, top)]);
            IsRun(s, steps) && Fires(s, Final(s, steps), top)
  {
    TrackerAtInnerFires(Apply(s, TestOuter), top, now, last);
    RunStep(s, TestOuter, [TestInner(now)] + [Pop(last, top)]);
  }

  /** The inner test goes to sleep exactly before the deadline of a running loop; otherwise the tracker fires next. */
  lemma SleepsOnlyBeforeDeadline(s: State, now: int)
    requires s.pc == Inner
    ensures var r := Apply(s, TestInner(now));
            && (r.pc == ToSleep <==> now < s.next && s.running)
            && (r.pc != ToSleep ==> r.pc.Firing? && r.pc.at == now)
  {
  }

  predicate ByOthers(steps: seq<Step>)
  {
    forall i :: 0 <= i < |steps| ==> !ByTracker(steps[i])
  }

  /** Other threads only add to the queue. */
  lemma {:induction false} OthersOnlyAdd(s: State, steps: seq<Step>)
    requires IsRun(s, steps) && ByOthers(steps) && s.pc != Sleeping
    ensures var t := Final(s, steps);
            && t.pc == s.pc && t.next == s.next && t.fired == s.fired && t.log == s.log && t.readded == s.readded
            && s.queue <= t.queue && (!s.running ==> !t.running)
    decreases |steps|
  {
    if steps != [] {
      assert !ByTracker(steps[0]);
      assert ByOthers(steps[1..]) by {
        forall i | 0 <= i < |steps[1..]| ensures !ByTracker(steps[1..][i]) { assert steps[1..][i] == steps[i + 1]; }
      }
      OthersOnlyAdd(Apply(s, steps[0]), steps[1..]);
    }
  }

  /** Whatever other threads do between the tracker's look, its test and its pop: if the test reads a clock at or past
      the time the look found, the pop fires a timeout that is due no later than that one. */
  lemma LookedAtTimeoutFiresAmidOthers(s: State, top: Timeout, now: int, first: seq<Step>, later: int,
                                       second: seq<Step>, last: int, out: Timeout)
    requires s.running && s.pc == Awake && IsEarliest(top, s.queue) && top.when <= later
    requires ByOthers(first) && ByOthers(second)
    requires var a := Apply(s, Look(now, top));
             && IsRun(a, first)
             && Enabled(Final(a, first), TestInner(later))
             && IsRun(Apply(Final(a, first), TestInner(later)), second)
             && Enabled(Final(Apply(Final(a, first), TestInner(later)), second), Pop(last, out))
    ensures var b := Final(Apply(s, Look(now, top)), first);
            var c := Final(Apply(b, TestInner(later)), second);
            Fires(c, Apply(c, Pop(last, out)), out) && out.when <= top.when <= later
  {
    var a := Apply(s, Look(now, top));
    OthersOnlyAdd(a, first);
    var b := Final(a, first);
    OthersOnlyAdd(Apply(b, TestInner(later)), second);
    var c := Final(Apply(b, TestInner(later)), second);
    assert top in c.queue;
  }

  /** What the tracker adds again after firing is queued at the given time for the same host: of the same kind and
      detail, except that a remote host check becomes a remote check without one. */
  lemma RescheduleQueuesAgain(s: State, when: int, t: Timeout)
    requires s.pc.Dispatching?
    ensures var f, r := s.pc.fired, Apply(s, Reschedule(when));
            && r.pc == Dispatched
            && r.queue[t] == s.queue[t] +
                 if t.host == f.host && t.when == when &&
                    (if f.kind == RemoteHostCheck then t.kind == RemoteCheck && t.detail == ""
                     else t.kind == f.kind && t.detail == f.detail)
                 then 1 else 0
  {
  }

  /** A tracker that has been told to stop ends at its next test or look. */
  lemma StopIsObeyed(s: State, now: int, top: Timeout)
    requires !s.running
    ensures s.pc == Outer ==> Apply(s, TestOuter).pc == Stopped
    ensures s.pc == Awake && Enabled(s, Look(now, top)) ==> Apply(s, Look(now, top)).pc == Stopped
  {
  }

  // ----- the tracker is never stuck -----

  lemma {:induction false} RunsOn(s: State, a: seq<Step>, b: seq<Step>)
    requires IsRun(s, a) && IsRun(Final(s, a), b)
    ensures IsRun(s, a + b) && Final(s, a + b) == Final(Final(s, a), b)
    decreases |a|
  {
    if a == [] {
      assert a + b == b;
    } else {
      var step, rest := a[0], a[1..];
      HeadOf(a, b);
      RunsOn(Apply(s, step), rest, b);
      RunStep(s, step, rest + b);
    }
  }

  lemma HeadOf(a: seq<Step>, b: seq<Step>)
    requires a != []
    ensures a + b == [a[0]] + (a[1..] + b)
  {
  }

  lemma {:induction false} SomeEarliest(q: multiset<Timeout>) returns (top: Timeout)
    requires q != multiset{}
    ensures IsEarliest(top, q)
    decreases |q|
  {
    var u :| u in q;
    var rest := q - multiset{u};
    top := u;
    if rest != multiset{} {
      var v := SomeEarliest(rest);
      top := if v.when < u.when then v else u;
    }
    forall x | x in q ensures top.when <= x.when {
      if x != u { assert x in rest; }
    }
  }

  /** A tracker that runs has not stopped, and only one that has dispatched has a wake-up of its own to give. */
  predicate Going(s: State)
  {
    (s.pc == Stopped ==> !s.running) && (TRACKER in s.pending ==> s.pc == Dispatched)
  }

  lemma {:induction false} RunKeepsGoing(s: State, steps: seq<Step>)
    requires Going(s) && IsRun(s, steps)
    ensures Going(Final(s, steps))
    decreases |steps|
  {
    if steps != [] { RunKeepsGoing(Apply(s, steps[0]), steps[1..]); }
  }

  /** Steps until the tracker pops. */
  function ToPop(s: State): nat
  {
    match s.pc
    case Firing(_, _) => 0
    case Inner => 1
    case Outer => 2
    case Awake => 2
    case Sleeping => 3
    case ToSleep => 4
    case Starting => 4
    case Dispatched => if TRACKER in s.pending then 6 else 5
    case Dispatching(_) => 7
    case Stopped => 8
  }

  /** The tracker's next step, if its clock then reads the time it is waiting for. */
  function NextStep(s: State, top: Timeout): Step
    requires !s.pc.Firing? && s.pc != Stopped
  {
    match s.pc
    case Inner => TestInner(s.next)
    case Outer => TestOuter
    case Awake => Look(top.when, top)
    case Sleeping => WaitReturns
    case ToSleep => EnterSleep
    case Starting => Start(top.when, top)
    case Dispatched => if TRACKER in s.pending then Wake(TRACKER) else Finish(top.when, top)
    case Dispatching(_) => Forget
  }

  lemma OneStepOn(s: State, top: Timeout)
    requires Going(s) && s.running && IsEarliest(top, s.queue) && !s.pc.Firing?
    ensures s.pc != Stopped
    ensures var step := NextStep(s, top);
            && Enabled(s, step)
            && var r := Apply(s, step);
               && Going(r) && ToPop(r) < ToPop(s)
               && r.running && r.queue == s.queue && r.fired == s.fired && r.added == s.added
  {
  }

  lemma {:induction false} ComesToPop(s: State, top: Timeout) returns (steps: seq<Step>)
    requires Going(s) && s.running && IsEarliest(top, s.queue)
    ensures IsRun(s, steps)
    ensures var r := Final(s, steps);
            r.pc.Firing? && Going(r) && r.running && r.queue == s.queue && r.fired == s.fired && r.added == s.added
    decreases ToPop(s)
  {
    steps := [];
    if !s.pc.Firing? {
      OneStepOn(s, top);
      var step := NextStep(s, top);
      var rest := ComesToPop(Apply(s, step), top);
      RunStep(s, step, rest);
      steps := [step] + rest;
    }
  }

  /** From wherever the tracker is, its own steps fire the earliest timeout. */
  lemma EarliestCanFire(s: State, top: Timeout) returns (steps: seq<Step>)
    requires Going(s) && s.running && IsEarliest(top, s.queue)
    ensures IsRun(s, steps)
    ensures var r := Final(s, steps);
            && Going(r) && r.running && r.added == s.added
            && r.queue == s.queue - multiset{top} && r.fired == s.fired + multiset{top}
  {
    steps := ComesToPop(s, top);
    var t := Final(s, steps);
    var pop := Pop(top.when, top);
    RunStep(t, pop, []);
    assert [pop] + [] == [pop];
    RunsOn(s, steps, [pop]);
    steps := steps + [pop];
  }

  lemma {:induction false} QueuedCanFire(s: State, t: Timeout) returns (steps: seq<Step>)
    requires Going(s) && s.running && t in s.queue
    ensures IsRun(s, steps)
    ensures var r := Final(s, steps); r.fired[t] > s.fired[t] && r.added == s.added
    decreases |s.queue|
  {
    var top := SomeEarliest(s.queue);
    steps := EarliestCanFire(s, top);
    if top != t {
      var more := QueuedCanFire(Final(s, steps), t);
      RunsOn(s, steps, more);
      steps := steps + more;
    }
  }

  /** No run is ever stuck: while the loop is running, every queued timeout can still be fired, with nothing added
      by other threads. */
  lemma EveryTimeoutCanFire(s: State, steps: seq<Step>, t: Timeout) returns (more: seq<Step>)
    requires Init(s) && IsRun(s, steps) && Final(s, steps).running && t in Final(s, steps).queue
    ensures IsRun(s, steps + more)
    ensures Final(s, steps + more).fired[t] > Final(s, steps).fired[t]
    ensures Final(s, steps + more).added == Final(s, steps).added
  {
    RunKeepsGoing(s, steps);
    more := QueuedCanFire(Final(s, steps), t);
    RunsOn(s, steps, more);
  }

  // ----- the tracker stops -----

  function ToStop(s: State): nat
  {
    match s.pc
    case Stopped => 0
    case Outer => 1
    case Awake => 1
    case Starting => 2
    case Sleeping => 2
    case ToSleep => 3
    case Dispatched => if TRACKER in s.pending then 3 else 2
    case Dispatching(_) => 4
    case Firing(_, _) => 5
    case Inner => 6
  }

  function NextToStop(s: State, top: Timeout): Step
    requires s.pc != Stopped
  {
    match s.pc
    case Outer => TestOuter
    case Inner => TestInner(s.next)
    case Awake => Look(s.next, top)
    case Starting => Start(s.next, top)
    case Sleeping => WaitReturns
    case ToSleep => EnterSleep
    case Dispatched => if TRACKER in s.pending then Wake(TRACKER) else Finish(s.next, top)
    case Dispatching(_) => Forget
    case Firing(_, _) => Pop(s.next, top)
  }

  lemma OneStepToStop(s: State, top: Timeout)
    requires Going(s) && !s.running && s.pc != Stopped && (s.queue != multiset{} ==> IsEarliest(top, s.queue))
    ensures var step := NextToStop(s, top);
            && Enabled(s, step)
            && var r := Apply(s, step); Going(r) && !r.running && ToStop(r) < ToStop(s)
  {
  }

  lemma {:induction false} CanStop(s: State) returns (steps: seq<Step>)
    requires Going(s) && !s.running
    ensures IsRun(s, steps) && Final(s, steps).pc == Stopped
    decreases ToStop(s)
  {
    steps := [];
    if s.pc != Stopped {
      var top := TopOrAny(s.queue);
      OneStepToStop(s, top);
      var step := NextToStop(s, top);
      var rest := CanStop(Apply(s, step));
      RunStep(s, step, rest);
      steps := [step] + rest;
    }
  }

  lemma TopOrAny(q: multiset<Timeout>) returns (top: Timeout)
    ensures q != multiset{} ==> IsEarliest(top, q)
  {
    top := Timeout(Dns, "", "", 0);
    if q != multiset{} { top := SomeEarliest(q); }
  }

  lemma {:induction false} StaysDown(s: State, steps: seq<Step>)
    requires !s.running && IsRun(s, steps)
    ensures !Final(s, steps).running
    decreases |steps|
  {
    if steps != [] { StaysDown(Apply(s, steps[0]), steps[1..]); }
  }

  /** Once somebody has shut the loop down it is down for good, and whatever happens afterwards the tracker can end by
      its own steps. */
  lemma ShutDownStops(s: State, before: seq<Step>, tid: ThreadId, after: seq<Step>) returns (more: seq<Step>)
    requires Init(s) && IsRun(s, before) && Enabled(Final(s, before), ShutDown(tid))
    requires IsRun(Apply(Final(s, before), ShutDown(tid)), after)
    ensures var t := Final(Apply(Final(s, before), ShutDown(tid)), after);
            !t.running && IsRun(t, more) && Final(t, more).pc == Stopped
  {
    RunKeepsGoing(s, before);
    var u := Apply(Final(s, before), ShutDown(tid));
    RunKeepsGoing(u, after);
    StaysDown(u, after);
    more := CanStop(Final(u, after));
  }

  // ----- wake-ups are given once and used once -----

  /** Every thread that has a wake-up to give can give it, and then none has; the tracker does not sleep on. */
  lemma {:induction false} WakeupsAreGiven(s: State) returns (steps: seq<Step>)
    ensures IsRun(s, steps) && forall step :: step in steps ==> step.Wake?
    ensures var r := Final(s, steps);
            && r.pending == {} && r.queue == s.queue && r.running == s.running
            && (s.pending != {} ==> r.wakeup && r.pc != Sleeping)
    decreases |s.pending|
  {
    steps := [];
    if s.pending != {} {
      var tid :| tid in s.pending;
      var r := Apply(s, Wake(tid));
      var rest := WakeupsAreGiven(r);
      RunStep(s, Wake(tid), rest);
      steps := [Wake(tid)] + rest;
    }
  }

  /** A wake-up saves the tracker from one sleep and no more: it looks at the queue again, and if its deadline is
      still ahead it sleeps. */
  lemma WakeupIsUsedOnce(s: State, top: Timeout, now: int, later: int)
    requires s.running && s.pc == ToSleep && s.wakeup && IsEarliest(top, s.queue) && later < top.when
    ensures var steps := [EnterSleep] + ([Look(now, top)] + ([TestInner(later)] + [EnterSleep]));
            && IsRun(s, steps)
            && Final(s, steps) == s.(wakeup := false, next := top.when, basis := FromQueue, pc := Sleeping)
  {
    var a := Apply(s, EnterSleep);
    var b := Apply(a, Look(now, top));
    var c := Apply(b, TestInner(later));
    RunStep(c, EnterSleep, []);
    assert [EnterSleep] + [] == [EnterSleep];
    RunStep(b, TestInner(later), [EnterSleep]);
    RunStep(a, Look(now, top), [TestInner(later)] + [EnterSleep]);
    RunStep(s, EnterSleep, [Look(now, top)] + ([TestInner(later)] + [EnterSleep]));
  }

  /** At the beginning the tracker can only look at the queue for the first time. */
  lemma FirstLook(s: State, step: Step)
    requires Init(s) && Enabled(s, step) && ByTracker(step)
    ensures step.Start? && Apply(s, step).pc == Outer && Apply(s, step).log == []
  {
  }
}
