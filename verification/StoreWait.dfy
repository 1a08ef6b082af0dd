/**
 The commit thread's wait for work.

 The thread waits on a condition variable whose predicate does the work: it tries to commit one health-check
 update, then one auxiliary update, and is satisfied if either made progress or the store is
 closing.  An update of an unconfigured group is taken and makes no progress.  A producer pushes first
 and then notifies under the mutex that the thread holds while it evaluates the predicate.
 */
module StoreWait {
  import Queue = StoreQueue

  type Known = Queue.Known

  datatype Pc =
    | Running                             // about to test the closing flag
    | Ready                               // about to take the mutex and evaluate
    | AtChecks                            // holds the mutex, about to look at the health-check queue
    | AtAux                               // no progress there, about to look at the auxiliary queue
    | AtFlag                              // nor there, about to look at the closing flag
    | AboutToSleep                        // it was not set; still holds the mutex
    | Asleep                              // blocked, mutex released
    | Closing                             // past the loop

  datatype State = State(
    checks: seq<Known>,
    aux: seq<Known>,
    notifiers: nat,                       // threads that have pushed and not yet notified
    closing: bool,                        // the closing flag
    closers: nat,                         // threads that have set it and not yet notified
    pc: Pc,
    droppedCheck: bool,                   // the evaluation took an update of an unconfigured group ...
    droppedAux: bool,                     // ... from the one or the other queue
    bare: nat,                            // threads that have set the flag to reopen the store and not yet notified
    lost: bool)                           // such a notification came when the thread was about to sleep

  datatype Step =
    | PushCheck(known: Known)
    | PushAux(known: Known)
    | Notify
    | Close
    | NotifyClose
    | Reopen                              // set the closing flag in order to load the store again ...
    | NotifyBare                          // ... and notify without the mutex
    | TestLoop                            // the loop condition
    | Evaluate                            // take the mutex
    | TryCheck
    | TryAux
    | TryFlag
    | Block
    | Wake                                // the condition variable wakes without a notification

  /** The mutex is free: the thread is not evaluating. */
  predicate MutexFree(s: State) { s.pc == Running || s.pc == Ready || s.pc == Asleep || s.pc == Closing }

  predicate Enabled(s: State, step: Step)
  {
    match step
    case PushCheck(_) => true
    case PushAux(_) => true
    case Notify => s.notifiers > 0 && MutexFree(s)
    case Close => true
    case NotifyClose => s.closers > 0 && MutexFree(s)
    case TestLoop => s.pc == Running
    case Reopen => true
    case NotifyBare => s.bare > 0
    case Evaluate => s.pc == Ready
    case TryCheck => s.pc == AtChecks
    case TryAux => s.pc == AtAux
    case TryFlag => s.pc == AtFlag
    case Block => s.pc == AboutToSleep
    case Wake => s.pc == Asleep
  }

  /** A notification reaches the thread only if it sleeps. */
  function Woken(pc: Pc): Pc { if pc == Asleep then AtChecks else pc }

  function Apply(s: State, step: Step): State
    requires Enabled(s, step)
  {
    match step
    case PushCheck(k) => s.(checks := s.checks + [k], notifiers := s.notifiers + 1)
    case PushAux(k) => s.(aux := s.aux + [k], notifiers := s.notifiers + 1)
    case Notify => s.(notifiers := s.notifiers - 1, pc := Woken(s.pc))
    case Close => s.(closing := true, closers := s.closers + 1)
    case NotifyClose => s.(closers := s.closers - 1, pc := Woken(s.pc))
    case TestLoop => s.(pc := if s.closing then Closing else Ready)
    case Evaluate => s.(pc := AtChecks)
    case TryCheck =>
      if s.checks == [] then s.(pc := AtAux, droppedCheck := false)
      else if s.checks[0] then s.(checks := s.checks[1..], pc := Running)
      else s.(checks := s.checks[1..], pc := AtAux, droppedCheck := true)
    case TryAux =>
      if s.aux == [] then s.(pc := AtFlag, droppedAux := false)
      else if s.aux[0] then s.(aux := s.aux[1..], pc := Running)
      else s.(aux := s.aux[1..], pc := AtFlag, droppedAux := true)
    case TryFlag => s.(pc := if s.closing then Running else AboutToSleep, lost := false)
    case Block => s.(pc := Asleep)
    case Reopen => s.(closing := true, bare := s.bare + 1)
    case NotifyBare => s.(bare := s.bare - 1, pc := Woken(s.pc), lost := s.lost || s.pc == AboutToSleep)
    case Wake => s.(pc := AtChecks)
  }

  predicate IsRun(s: State, steps: seq<Step>)
    decreases |steps|
  {
    steps == [] || (Enabled(s, steps[0]) && IsRun(Apply(s, steps[0]), steps[1..]))
  }

  function Final(s: State, steps: seq<Step>): State
    requires IsRun(s, steps)
    decreases |steps|
  {
    if steps == [] then s else Final(Apply(s, steps[0]), steps[1..])
  }

  predicate Initial(s: State)
  {
    s.checks == [] && s.aux == [] && s.notifiers == 0 && !s.closing && s.closers == 0 && s.bare == 0 && s.pc == Running
  }

  predicate PastChecks(pc: Pc) { pc == AtAux || PastAux(pc) }

  predicate PastAux(pc: Pc) { pc == AtFlag || PastFlag(pc) }

  predicate PastFlag(pc: Pc) { pc == AboutToSleep || pc == Asleep }

  /** Past a queue without progress: it is empty, something is about to notify, or an update was dropped.  Past the
      flag: it is not set, or somebody is about to notify, or a notification was lost. */
  predicate Inv(s: State)
  {
    && (PastChecks(s.pc) ==> s.checks == [] || s.notifiers > 0 || s.droppedCheck)
    && (PastAux(s.pc) ==> s.aux == [] || s.notifiers > 0 || s.droppedAux)
    && (PastFlag(s.pc) && s.closing ==> s.closers > 0 || s.bare > 0 || s.lost)
  }

  lemma StepKeepsInv(s: State, step: Step)
    requires Inv(s) && Enabled(s, step)
    ensures Inv(Apply(s, step))
  {
  }

  lemma {:induction false} RunKeepsInv(s: State, steps: seq<Step>)
    requires Inv(s) && IsRun(s, steps)
    ensures Inv(Final(s, steps))
    decreases |steps|
  {
    if steps != [] {
      StepKeepsInv(s, steps[0]);
      RunKeepsInv(Apply(s, steps[0]), steps[1..]);
    }
  }

  /** In every run, a thread that sleeps although updates are queued is about to be notified or has, in its last
      evaluation, dropped an update of an unconfigured group from that very queue.  A thread that sleeps although the
      store is closing is about to be notified, unless the store was being reopened and that notification, which is
      made without the mutex, came between the test of the flag and the sleep. */
  lemma SleepsOverWorkOnlyAfterDrop(s: State, steps: seq<Step>)
    requires Initial(s) && IsRun(s, steps) && Final(s, steps).pc == Asleep
    ensures var t := Final(s, steps);
            && (t.checks != [] ==> t.notifiers > 0 || t.droppedCheck)
            && (t.aux != [] ==> t.notifiers > 0 || t.droppedAux)
            && (t.closing ==> t.closers > 0 || t.bare > 0 || t.lost)
            && (t.closers > 0 ==> Enabled(t, NotifyClose) && Apply(t, NotifyClose).pc != Asleep)
            && (t.bare > 0 ==> Enabled(t, NotifyBare) && Apply(t, NotifyBare).pc != Asleep)
  {
    RunKeepsInv(s, steps);
  }

  predicate NeverReopened(steps: seq<Step>) { forall step :: step in steps ==> step != Reopen }

  lemma {:induction false} NothingBare(s: State, steps: seq<Step>)
    requires s.bare == 0 && IsRun(s, steps) && NeverReopened(steps)
    ensures Final(s, steps).bare == 0 && (Final(s, steps).lost ==> s.lost)
    decreases |steps|
  {
    if steps != [] {
      assert steps[0] in steps && forall step :: step in steps[1..] ==> step in steps;
      NothingBare(Apply(s, steps[0]), steps[1..]);
    }
  }

  /** So closing the store, which notifies under the mutex, never leaves the thread asleep. */
  lemma CloseIsNeverLost(s: State, steps: seq<Step>)
    requires Initial(s) && !s.lost && IsRun(s, steps) && NeverReopened(steps)
    requires Final(s, steps).pc == Asleep && Final(s, steps).closing
    ensures var t := Final(s, steps); Enabled(t, NotifyClose) && Apply(t, NotifyClose).pc != Asleep
  {
    RunKeepsInv(s, steps);
    NothingBare(s, steps);
  }

  /** But reopening it can: the thread sleeps, the flag is set, and nobody is left to notify, so that the thread that
      waits for it to end waits until something else happens. */
  lemma ReopenCanHang(s: State) returns (steps: seq<Step>)
    requires Initial(s)
    ensures IsRun(s, steps)
    ensures var t := Final(s, steps);
            && t.pc == Asleep && t.closing
            && forall step :: Enabled(t, step) ==> OnlySomethingElse(step)
  {
    steps := UpToTheSleep(s);
    RunAnd(s, steps, Reopen); steps := steps + [Reopen];
    RunAnd(s, steps, NotifyBare); steps := steps + [NotifyBare];
    RunAnd(s, steps, Block); steps := steps + [Block];
  }

  predicate OnlySomethingElse(step: Step)
  {
    step.PushCheck? || step.PushAux? || step == Close || step == Reopen || step == Wake
  }

  lemma UpToTheSleep(s: State) returns (steps: seq<Step>)
    requires Initial(s)
    ensures IsRun(s, steps)
    ensures Final(s, steps) == s.(pc := AboutToSleep, droppedCheck := false, droppedAux := false, lost := false)
  {
    steps := [];
    RunAnd(s, steps, TestLoop); steps := steps + [TestLoop];
    RunAnd(s, steps, Evaluate); steps := steps + [Evaluate];
    RunAnd(s, steps, TryCheck); steps := steps + [TryCheck];
    RunAnd(s, steps, TryAux); steps := steps + [TryAux];
    RunAnd(s, steps, TryFlag); steps := steps + [TryFlag];
  }

  /** The updates a queue has left after one evaluation found no progress in it. */
  function Rest(q: seq<Known>): seq<Known> { if q == [] then [] else q[1..] }

  predicate NoProgress(q: seq<Known>) { q == [] || !q[0] }

  /** The state after an evaluation with nothing in between. */
  function After(s: State): State
    requires s.pc == AtChecks
  {
    var a := Apply(s, TryCheck);
    if a.pc != AtAux then a
    else
      var b := Apply(a, TryAux);
      if b.pc != AtFlag then b
      else
        var c := Apply(b, TryFlag);
        if c.pc != AboutToSleep then c else Apply(c, Block)
  }

  predicate SleepsAfter(s: State)
    requires s.pc == AtChecks
  {
    After(s).pc == Asleep
  }

  lemma AfterCheckTaken(s: State)
    requires s.pc == AtChecks && !NoProgress(s.checks)
    ensures After(s) == s.(checks := s.checks[1..], pc := Running)
  {
  }

  lemma AfterAuxTaken(s: State)
    requires s.pc == AtChecks && NoProgress(s.checks) && !NoProgress(s.aux)
    ensures After(s) == s.(checks := Rest(s.checks), droppedCheck := s.checks != [], aux := s.aux[1..], pc := Running)
  {
  }

  lemma AfterNoProgress(s: State)
    requires s.pc == AtChecks && NoProgress(s.checks) && NoProgress(s.aux)
    ensures After(s) == s.(checks := Rest(s.checks), droppedCheck := s.checks != [],
                           aux := Rest(s.aux), droppedAux := s.aux != [],
                           pc := if s.closing then Running else Asleep, lost := false)
  {
    var a := Apply(s, TryCheck);
    assert a == s.(checks := Rest(s.checks), droppedCheck := s.checks != [], pc := AtAux);
    var b := Apply(a, TryAux);
    assert b == a.(aux := Rest(s.aux), droppedAux := s.aux != [], pc := AtFlag);
  }

  /** One undisturbed evaluation puts the thread to sleep over queued work exactly when neither queue starts with an
      update of a configured group, the store is not closing, and one of them holds more than its first update. */
  lemma EvaluationSleepsOverWorkIff(s: State)
    requires s.pc == AtChecks
    ensures var slept := SleepsAfter(s);
            && (slept <==> NoProgress(s.checks) && NoProgress(s.aux) && !s.closing)
            && (slept ==> After(s).checks == Rest(s.checks) && After(s).aux == Rest(s.aux))
            && (slept && (After(s).checks != [] || After(s).aux != []) <==>
                NoProgress(s.checks) && NoProgress(s.aux) && !s.closing && (|s.checks| > 1 || |s.aux| > 1))
  {
    if !NoProgress(s.checks) {
      AfterCheckTaken(s);
    } else if !NoProgress(s.aux) {
      AfterAuxTaken(s);
    } else {
      AfterNoProgress(s);
    }
  }

  /** An undisturbed evaluation takes one update of a configured group, of the health checks if they begin with one
      and else of the auxiliary updates, and gives everything else back to the loop or to sleep. */
  lemma EvaluationTakesOne(s: State)
    requires s.pc == AtChecks
    ensures var r := After(s);
            && (s.checks != [] && s.checks[0] ==> r == s.(checks := s.checks[1..], pc := Running))
            && (s.checks != [] && !s.checks[0] ==> r.checks == s.checks[1..])
            && (s.checks == [] ==> r.checks == [])
            && ((s.checks == [] || !s.checks[0]) && s.aux != [] && s.aux[0] ==> r.pc == Running && r.aux == s.aux[1..])
            && ((s.checks == [] || !s.checks[0]) && (s.aux == [] || !s.aux[0]) ==>
                  (r.pc == if s.closing then Running else Asleep) && r.aux == if s.aux == [] then [] else s.aux[1..])
  {
    if s.checks != [] && s.checks[0] {
      AfterCheckTaken(s);
    } else if s.aux != [] && s.aux[0] {
      AfterAuxTaken(s);
    } else {
      AfterNoProgress(s);
    }
  }

  predicate AllKnown(q: seq<Known>) { forall i :: 0 <= i < |q| ==> q[i] }

  predicate KnownSteps(steps: seq<Step>)
  {
    forall i :: 0 <= i < |steps| ==> steps[i] != PushCheck(false) && steps[i] != PushAux(false)
  }

  predicate NothingDropped(s: State)
  {
    && AllKnown(s.checks) && AllKnown(s.aux)
    && (PastChecks(s.pc) ==> !s.droppedCheck)
    && (PastAux(s.pc) ==> !s.droppedAux)
  }

  lemma StepDropsNothing(s: State, step: Step)
    requires NothingDropped(s) && Enabled(s, step) && step != PushCheck(false) && step != PushAux(false)
    ensures NothingDropped(Apply(s, step))
  {
  }

  lemma {:induction false} RunDropsNothing(s: State, steps: seq<Step>)
    requires NothingDropped(s) && IsRun(s, steps) && KnownSteps(steps)
    ensures NothingDropped(Final(s, steps))
    decreases |steps|
  {
    if steps != [] {
      assert steps[0] != PushCheck(false) && steps[0] != PushAux(false);
      assert KnownSteps(steps[1..]) by {
        forall i | 0 <= i < |steps[1..]| ensures steps[1..][i] != PushCheck(false) && steps[1..][i] != PushAux(false) {
          assert steps[1..][i] == steps[i + 1];
        }
      }
      StepDropsNothing(s, steps[0]);
      RunDropsNothing(Apply(s, steps[0]), steps[1..]);
    }
  }

  /** Without updates of unconfigured groups a sleeping thread has nothing queued unless a producer is about to
      notify it: no wake-up is lost. */
  lemma NoLostUpdateWhenAllKnown(s: State, steps: seq<Step>)
    requires Initial(s) && IsRun(s, steps) && KnownSteps(steps) && Final(s, steps).pc == Asleep
    ensures var t := Final(s, steps); t.notifiers > 0 || (t.checks == [] && t.aux == [])
  {
    RunKeepsInv(s, steps);
    RunDropsNothing(s, steps);
  }

  /** And the notification does its work: the thread that slept takes the update at the front of the queue. */
  lemma NotifiedThreadTakesFront(s: State, steps: seq<Step>)
    requires Initial(s) && IsRun(s, steps) && KnownSteps(steps)
    requires Final(s, steps).pc == Asleep && Final(s, steps).checks != []
    ensures var t := Final(s, steps);
            && IsRun(t, [Notify, TryCheck])
            && Final(t, [Notify, TryCheck]) ==
               t.(notifiers := t.notifiers - 1, checks := t.checks[1..], pc := Running)
  {
    var t := Final(s, steps);
    NoLostUpdateWhenAllKnown(s, steps);
    RunDropsNothing(s, steps);
    assert t.checks[0];
    var a := Apply(t, Notify);
    var two := [Notify, TryCheck];
    assert two[1..] == [TryCheck] && two[1..][1..] == [];
    assert IsRun(Apply(a, TryCheck), []) && Final(Apply(a, TryCheck), []) == Apply(a, TryCheck);
    assert IsRun(a, two[1..]);
  }

  /** With one, the thread can sleep over an update of a configured group that nobody will announce again. */
  lemma DropStrandsTheNext(s: State) returns (steps: seq<Step>)
    requires Initial(s)
    ensures IsRun(s, steps)
    ensures var t := Final(s, steps); t.pc == Asleep && t.checks == [true] && t.notifiers == 0
  {
    steps := TwoPushed(s);
    RunAnd(s, steps, TestLoop); steps := steps + [TestLoop];
    RunAnd(s, steps, Evaluate); steps := steps + [Evaluate];
    RunAnd(s, steps, TryCheck); steps := steps + [TryCheck];
    RunAnd(s, steps, TryAux); steps := steps + [TryAux];
    RunAnd(s, steps, TryFlag); steps := steps + [TryFlag];
    RunAnd(s, steps, Block); steps := steps + [Block];
  }

  lemma TwoPushed(s: State) returns (steps: seq<Step>)
    requires Initial(s)
    ensures IsRun(s, steps) && Final(s, steps) == s.(checks := [false, true])
  {
    steps := [];
    RunAnd(s, steps, PushCheck(false)); steps := steps + [PushCheck(false)];
    RunAnd(s, steps, PushCheck(true)); steps := steps + [PushCheck(true)];
    RunAnd(s, steps, Notify); steps := steps + [Notify];
    RunAnd(s, steps, Notify); steps := steps + [Notify];
  }

  lemma {:induction false} RunAnd(s: State, steps: seq<Step>, step: Step)
    requires IsRun(s, steps) && Enabled(Final(s, steps), step)
    ensures IsRun(s, steps + [step]) && Final(s, steps + [step]) == Apply(Final(s, steps), step)
    decreases |steps|
  {
    if steps == [] {
      assert steps + [step] == [step] && [step][1..] == [];
    } else {
      RunAnd(Apply(s, steps[0]), steps[1..], step);
      assert (steps + [step])[1..] == steps[1..] + [step];
    }
  }

  /** When the store is closed, one update for a removed group at the front is enough to leave everything behind it in
      the queue. */
  lemma DrainCanStrand(rest: seq<Known>)
    requires rest != []
    ensures Queue.Drained([false] + rest, []) == (rest, [])
  {
    assert ([false] + rest)[1..] == rest;
  }
}
