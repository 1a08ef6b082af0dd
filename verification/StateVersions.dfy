/**
 Reloading, swapping and reclaiming versions of the daemon's state.

 A version is a reference-counted state object, numbered by creation.  The manager holds three
 references: the current state, a state under construction (which after the swap is the old state),
 and the transaction state.  Any number of workers hold references to versions they took from
 the current state, any number of clients to versions they took from the transaction state.
 Every assignment of a reference is one atomic step.
 */
module StateVersions {
  import opened Basics

  type Version = nat

  /** Where the thread inside the reload lock is. */
  datatype Phase = Idle | Building | Copied | Waiting

  datatype State = State(
    counts: seq<int>,                   // the reference count of every state object made so far
    current: Version,
    pending: Option<Version>,           // under construction, or the old version while waiting
    transaction: Version,
    workers: seq<Option<Version>>,
    clients: seq<Option<Version>>,
    phase: Phase)

  /** An object is destroyed when its last reference goes. */
  predicate Collected(s: State, v: Version) { v < |s.counts| && s.counts[v] == 0 }

  datatype Step =
    | Refresh(w: nat)                   // updateState
    | Drop(w: nat)
    | Fetch(c: nat)                     // updateTransactionState
    | Forget(c: nat)
    | ResetTransaction(w: nat)          // the second half of resetTransactionState: w holds the version to copy
    | BeginReload
    | FailAndReset                      // a failure that clears the pending state
    | FailAndLeave                      // a failure, or a hash mismatch, that leaves it in place
    | CopyTransaction
    | Swap
    | FinishSwap

  function Bump(counts: seq<int>, v: Option<Version>, d: int): (r: seq<int>)
    ensures |r| == |counts|
    ensures forall u :: 0 <= u < |r| ==> r[u] == if v == Some(u) then counts[u] + d else counts[u]
  {
    if v.Some? && v.value < |counts| then counts[v.value := counts[v.value] + d] else counts
  }

  /** Assign a reference: the new target gains a count and the old one loses it. */
  function Assign(s: State, take: Option<Version>, drop: Option<Version>): State
  {
    s.(counts := Bump(Bump(s.counts, take, 1), drop, -1))
  }

  /** Assign a reference to a new object. */
  function AssignNew(s: State, drop: Option<Version>): State
  {
    s.(counts := Bump(s.counts + [1], drop, -1))
  }

  predicate Enabled(s: State, step: Step)
  {
    match step
    case Refresh(w) => w < |s.workers|
    case Drop(w) => w < |s.workers|
    case Fetch(c) => c < |s.clients|
    case Forget(c) => c < |s.clients|
    case ResetTransaction(w) => w < |s.workers| && s.workers[w].Some?
    case BeginReload => s.phase == Idle
    case FailAndReset => s.phase == Building
    case FailAndLeave => s.phase == Building
    case CopyTransaction => s.phase == Building
    case Swap => s.phase == Copied && s.pending.Some?
    case FinishSwap =>
      s.phase == Waiting && s.pending.Some? && s.pending.value < |s.counts| && s.counts[s.pending.value] <= 1
  }

  function Apply(s: State, step: Step): State
    requires Enabled(s, step)
  {
    match step
    case Refresh(w) =>
      if s.workers[w] == Some(s.current) then s
      else Assign(s, Some(s.current), s.workers[w]).(workers := s.workers[w := Some(s.current)])
    case Drop(w) => Assign(s, None, s.workers[w]).(workers := s.workers[w := None])
    case Fetch(c) =>
      if s.clients[c] == Some(s.transaction) then s
      else Assign(s, Some(s.transaction), s.clients[c]).(clients := s.clients[c := Some(s.transaction)])
    case Forget(c) => Assign(s, None, s.clients[c]).(clients := s.clients[c := None])
    case ResetTransaction(w) => AssignNew(s, Some(s.transaction)).(transaction := |s.counts|)
    case BeginReload => AssignNew(s, s.pending).(pending := Some(|s.counts|), phase := Building)
    case FailAndReset => Assign(s, None, s.pending).(pending := None, phase := Idle)
    case FailAndLeave => s.(phase := Idle)
    case CopyTransaction => AssignNew(s, Some(s.transaction)).(transaction := |s.counts|, phase := Copied)
    case Swap => s.(current := s.pending.value, pending := Some(s.current), phase := Waiting)
    case FinishSwap => Assign(s, None, s.pending).(pending := None, phase := Idle)
  }

  predicate IsRun(s: State, steps: seq<Step>)
    decreases |steps|
  {
    steps == [] || (Enabled(s, steps[0]) && IsRun(Apply(s, steps[0]), steps[1..]))
  }

  function Final(s: State, steps: seq<Step>): State
    requires IsRun(s, steps)
    decreases |steps|
  {
    if steps == [] then s else Final(Apply(s, steps[0]), steps[1..])
  }

  // ----- reference counts are right -----

  function Is(v: Option<Version>, u: Version): nat { if v == Some(u) then 1 else 0 }

  /** How many of the references are to u. */
  function Held(refs: seq<Option<Version>>, u: Version): nat
  {
    if refs == [] then 0 else Held(refs[..|refs| - 1], u) + Is(refs[|refs| - 1], u)
  }

  lemma {:induction false} HeldUpdate(refs: seq<Option<Version>>, i: nat, v: Option<Version>, u: Version)
    requires i < |refs|
    ensures Held(refs[i := v], u) == Held(refs, u) - Is(refs[i], u) + Is(v, u)
  {
    var n := |refs| - 1;
    if i < n {
      HeldUpdate(refs[..n], i, v, u);
      assert refs[i := v][..n] == refs[..n][i := v];
    } else {
      assert refs[i := v][..n] == refs[..n];
    }
  }

  lemma {:induction false} HeldByNone(refs: seq<Option<Version>>, u: Version)
    requires forall i :: 0 <= i < |refs| ==> refs[i] != Some(u)
    ensures Held(refs, u) == 0
  {
    if refs != [] { HeldByNone(refs[..|refs| - 1], u); }
  }

  lemma {:induction false} HeldBySome(refs: seq<Option<Version>>, i: nat, u: Version)
    requires i < |refs| && refs[i] == Some(u)
    ensures Held(refs, u) > 0
  {
    if i < |refs| - 1 { HeldBySome(refs[..|refs| - 1], i, u); }
  }

  /** How many references to u there are. */
  function References(s: State, u: Version): nat
  {
    Is(Some(s.current), u) + Is(Some(s.transaction), u) + Is(s.pending, u) + Held(s.workers, u) + Held(s.clients, u)
  }

  predicate CountsRight(s: State)
  {
    forall u :: 0 <= u < |s.counts| ==> s.counts[u] == References(s, u)
  }

  predicate WorkerOk(s: State, v: Option<Version>)
  {
    v.Some? ==> v.value == s.current || (s.phase == Waiting && v == s.pending)
  }

  /** Clients hold transaction states, which are never installed themselves. */
  predicate ClientOk(s: State, v: Option<Version>)
  {
    v.Some? ==> v.value < |s.counts| && v != Some(s.current) && v != s.pending
  }

  predicate ManagerOk(s: State)
  {
    && s.current < |s.counts|
    && ClientOk(s, Some(s.transaction))
    && (s.pending.Some? ==> s.pending.value < |s.counts| && s.pending.value != s.current)
    && (s.phase != Idle ==> s.pending.Some?)
    && (s.phase == Building || s.phase == Copied ==> s.current < s.pending.value)
    && (s.phase == Waiting ==> s.pending.value < s.current)
  }

  predicate Inv(s: State)
  {
    && CountsRight(s) && ManagerOk(s)
    && (forall w :: 0 <= w < |s.workers| ==> WorkerOk(s, s.workers[w]))
    && (forall c :: 0 <= c < |s.clients| ==> ClientOk(s, s.clients[c]))
  }

  /** References to an object that does not exist yet: none. */
  lemma NoneToNew(s: State)
    requires Inv(s)
    ensures References(s, |s.counts|) == 0
  {
    HeldByNone(s.workers, |s.counts|);
    HeldByNone(s.clients, |s.counts|);
  }

  predicate MovesHolder(step: Step)
  {
    step.Refresh? || step.Drop? || step.Fetch? || step.Forget?
  }

  lemma HolderCounts(s: State, step: Step, u: Version)
    requires Inv(s) && Enabled(s, step) && MovesHolder(step)
    requires u < |s.counts|
    ensures |Apply(s, step).counts| == |s.counts|
    ensures Apply(s, step).counts[u] == References(Apply(s, step), u)
  {
    match step {
      case Refresh(w) => WorkerCounts(s, w, Some(s.current), u);
      case Drop(w) => WorkerCounts(s, w, None, u);
      case Fetch(c) => ClientCounts(s, c, Some(s.transaction), u);
      case Forget(c) => ClientCounts(s, c, None, u);
    }
  }

  lemma WorkerCounts(s: State, w: nat, v: Option<Version>, u: Version)
    requires CountsRight(s) && w < |s.workers| && u < |s.counts|
    ensures var r := Assign(s, v, s.workers[w]).(workers := s.workers[w := v]);
            r.counts[u] == References(r, u)
  {
    HeldUpdate(s.workers, w, v, u);
  }

  lemma ClientCounts(s: State, c: nat, v: Option<Version>, u: Version)
    requires CountsRight(s) && c < |s.clients| && u < |s.counts|
    ensures var r := Assign(s, v, s.clients[c]).(clients := s.clients[c := v]);
            r.counts[u] == References(r, u)
  {
    HeldUpdate(s.clients, c, v, u);
  }

  lemma ManagerCounts(s: State, step: Step, u: Version)
    requires Inv(s) && Enabled(s, step) && !MovesHolder(step)
    requires u < |Apply(s, step).counts|
    ensures Apply(s, step).counts[u] == References(Apply(s, step), u)
  {
    NoneToNew(s);
    assert u < |s.counts| ==> s.counts[u] == References(s, u);
  }

  lemma StepCounts(s: State, step: Step, u: Version)
    requires Inv(s) && Enabled(s, step)
    requires u < |Apply(s, step).counts|
    ensures Apply(s, step).counts[u] == References(Apply(s, step), u)
  {
    if MovesHolder(step) { HolderCounts(s, step, u); } else { ManagerCounts(s, step, u); }
  }

  /** When the manager sees a count of one, no worker holds the old version. */
  lemma CountOneMeansUnheld(s: State, w: nat)
    requires Inv(s) && s.phase == Waiting && s.counts[s.pending.value] <= 1 && w < |s.workers|
    ensures s.workers[w] != s.pending
  {
    if s.workers[w] == s.pending { HeldBySome(s.workers, w, s.pending.value); }
  }

  lemma StepHolders(s: State, step: Step)
    requires Inv(s) && Enabled(s, step)
    ensures var r := Apply(s, step);
            && (forall w :: 0 <= w < |r.workers| ==> WorkerOk(r, r.workers[w]))
            && (forall c :: 0 <= c < |r.clients| ==> ClientOk(r, r.clients[c]))
  {
    if step == FinishSwap {
      forall w | 0 <= w < |s.workers| ensures s.workers[w] != s.pending { CountOneMeansUnheld(s, w); }
    }
  }

  lemma StepKeepsInv(s: State, step: Step)
    requires Inv(s) && Enabled(s, step)
    ensures Inv(Apply(s, step))
  {
    var r := Apply(s, step);
    StepHolders(s, step);
    forall u | 0 <= u < |r.counts| ensures r.counts[u] == References(r, u) { StepCounts(s, step, u); }
  }

  predicate Initial(s: State)
  {
    && s.counts == [1, 1] && s.current == 0 && s.transaction == 1 && s.pending == None && s.phase == Idle
    && (forall w :: 0 <= w < |s.workers| ==> s.workers[w] == None)
    && (forall c :: 0 <= c < |s.clients| ==> s.clients[c] == None)
  }

  lemma InitialInv(s: State)
    requires Initial(s)
    ensures Inv(s)
  {
    forall u | 0 <= u < 2 ensures s.counts[u] == References(s, u) {
      HeldByNone(s.workers, u);
      HeldByNone(s.clients, u);
    }
  }

  lemma {:induction false} RunKeepsInv(s: State, steps: seq<Step>)
    requires Inv(s) && IsRun(s, steps)
    ensures Inv(Final(s, steps))
    decreases |steps|
  {
    if steps != [] {
      StepKeepsInv(s, steps[0]);
      RunKeepsInv(Apply(s, steps[0]), steps[1..]);
    }
  }

  // ----- main results -----

  /** In every run no version is collected while somebody holds it, and workers hold only the current version
      or, during a swap, the one being replaced. */
  lemma HeldIsAlive(s: State, steps: seq<Step>)
    requires Initial(s) && IsRun(s, steps)
    ensures var t := Final(s, steps);
            && !Collected(t, t.current)
            && (forall w :: 0 <= w < |t.workers| && t.workers[w].Some? ==>
                  && !Collected(t, t.workers[w].value)
                  && (t.workers[w].value == t.current || (t.phase == Waiting && t.workers[w] == t.pending)))
            && (forall c :: 0 <= c < |t.clients| && t.clients[c].Some? ==> !Collected(t, t.clients[c].value))
  {
    InitialInv(s);
    RunKeepsInv(s, steps);
    var t := Final(s, steps);
    forall w | 0 <= w < |t.workers| && t.workers[w].Some?
      ensures !Collected(t, t.workers[w].value)
      ensures WorkerOk(t, t.workers[w])
    {
      HeldBySome(t.workers, w, t.workers[w].value);
    }
    forall c | 0 <= c < |t.clients| && t.clients[c].Some? ensures !Collected(t, t.clients[c].value) {
      HeldBySome(t.clients, c, t.clients[c].value);
    }
  }

  /** A collected version is never referred to again. */
  lemma {:induction false} CollectedForGood(s: State, steps: seq<Step>, v: Version)
    requires Inv(s) && IsRun(s, steps) && Collected(s, v)
    ensures Collected(Final(s, steps), v)
    decreases |steps|
  {
    if steps != [] {
      StepKeepsInv(s, steps[0]);
      StepKeepsCollected(s, steps[0], v);
      CollectedForGood(Apply(s, steps[0]), steps[1..], v);
    }
  }

  lemma StepKeepsCollected(s: State, step: Step, v: Version)
    requires Inv(s) && Enabled(s, step) && Collected(s, v)
    ensures Collected(Apply(s, step), v)
  {
    StepKeepsInv(s, step);
    assert References(s, v) == 0;
    match step {
      case Refresh(w) => HeldUpdate(s.workers, w, Some(s.current), v);
      case Drop(w) => HeldUpdate(s.workers, w, None, v);
      case Fetch(c) => HeldUpdate(s.clients, c, Some(s.transaction), v);
      case Forget(c) => HeldUpdate(s.clients, c, None, v);
      case _ =>
    }
  }

  predicate AtLeast(s: State, w: nat, v: Version)
  {
    v <= s.current && w < |s.workers| && (s.workers[w].Some? ==> v <= s.workers[w].value)
  }

  lemma {:induction false} StaysAtLeast(s: State, steps: seq<Step>, w: nat, v: Version)
    requires Inv(s) && IsRun(s, steps) && AtLeast(s, w, v)
    ensures AtLeast(Final(s, steps), w, v)
    decreases |steps|
  {
    if steps != [] {
      StepKeepsInv(s, steps[0]);
      StaysAtLeast(Apply(s, steps[0]), steps[1..], w, v);
    }
  }

  lemma {:induction false} RunConcat(s: State, a: seq<Step>, b: seq<Step>)
    requires IsRun(s, a + b)
    ensures IsRun(s, a) && IsRun(Final(s, a), b) && Final(s, a + b) == Final(Final(s, a), b)
    decreases |a|
  {
    if a == [] {
      assert a + b == b;
    } else {
      assert (a + b)[0] == a[0] && (a + b)[1..] == a[1..] + b;
      RunConcat(Apply(s, a[0]), a[1..], b);
    }
  }

  /** A worker's version never goes backwards, even if it lets go of its reference in between. */
  lemma NeverBackwards(s: State, first: seq<Step>, more: seq<Step>, w: nat)
    requires Initial(s) && IsRun(s, first + more)
    requires IsRun(s, first) && w < |Final(s, first).workers| && Final(s, first).workers[w].Some?
    requires w < |Final(s, first + more).workers| && Final(s, first + more).workers[w].Some?
    ensures Final(s, first).workers[w].value <= Final(s, first + more).workers[w].value
  {
    InitialInv(s);
    RunConcat(s, first, more);
    RunKeepsInv(s, first);
    var t := Final(s, first);
    StaysAtLeast(t, more, w, t.workers[w].value);
  }

  predicate HeldByClient(s: State, v: Version)
  {
    exists c :: 0 <= c < |s.clients| && s.clients[c] == Some(v)
  }

  /** With no reload in progress the versions alive are the current one, the transaction, one the manager itself left
      pending after a failed reload, and those clients took from the transaction and still hold.  Workers add nothing
      to these. */
  lemma OnlyCurrentStaysAlive(s: State, steps: seq<Step>, v: Version)
    requires Initial(s) && IsRun(s, steps) && Final(s, steps).phase == Idle && v < |Final(s, steps).counts|
    ensures var t := Final(s, steps);
            !Collected(t, v) <==> v == t.current || v == t.transaction || t.pending == Some(v) || HeldByClient(t, v)
  {
    InitialInv(s);
    RunKeepsInv(s, steps);
    var t := Final(s, steps);
    if HeldByClient(t, v) {
      var c :| 0 <= c < |t.clients| && t.clients[c] == Some(v);
      HeldBySome(t.clients, c, v);
    } else if v != t.current && v != t.transaction && t.pending != Some(v) {
      forall w | 0 <= w < |t.workers| ensures t.workers[w] != Some(v) { assert WorkerOk(t, t.workers[w]); }
      HeldByNone(t.workers, v);
      HeldByNone(t.clients, v);
    }
  }

  lemma UnheldCountsOne(s: State)
    requires Inv(s) && s.phase == Waiting && forall w :: 0 <= w < |s.workers| ==> s.workers[w] != s.pending
    ensures s.counts[s.pending.value] == 1
  {
    var v := s.pending.value;
    forall c | 0 <= c < |s.clients| ensures s.clients[c] != Some(v) { assert ClientOk(s, s.clients[c]); }
    HeldByNone(s.workers, v);
    HeldByNone(s.clients, v);
  }

  /** The manager's busy wait ends exactly when no worker holds the old version. */
  lemma FinishEnabledIff(s: State, steps: seq<Step>)
    requires Initial(s) && IsRun(s, steps) && Final(s, steps).phase == Waiting
    ensures var t := Final(s, steps);
            Enabled(t, FinishSwap) <==> forall w :: 0 <= w < |t.workers| ==> t.workers[w] != t.pending
  {
    InitialInv(s);
    RunKeepsInv(s, steps);
    var t := Final(s, steps);
    if Enabled(t, FinishSwap) {
      forall w | 0 <= w < |t.workers| ensures t.workers[w] != t.pending { CountOneMeansUnheld(t, w); }
    } else if forall w :: 0 <= w < |t.workers| ==> t.workers[w] != t.pending {
      UnheldCountsOne(t);
    }
  }

  predicate LetsGo(steps: seq<Step>, w: nat) { Refresh(w) in steps || Drop(w) in steps }

  lemma LetsGoNowOrLater(steps: seq<Step>, w: nat)
    requires steps != []
    ensures LetsGo(steps, w) <==> steps[0] == Refresh(w) || steps[0] == Drop(w) || LetsGo(steps[1..], w)
  {
    assert steps == [steps[0]] + steps[1..];
  }

  lemma WaitingStep(s: State, step: Step)
    requires s.phase == Waiting && Enabled(s, step) && step != FinishSwap
    ensures var r := Apply(s, step);
            r.phase == Waiting && r.pending == s.pending && r.current == s.current && |r.workers| == |s.workers|
  {
  }

  lemma UnheldStep(s: State, step: Step, w: nat)
    requires ManagerOk(s) && s.phase == Waiting && Enabled(s, step) && step != FinishSwap && w < |s.workers|
    requires s.workers[w] != s.pending || step == Refresh(w) || step == Drop(w)
    ensures Apply(s, step).workers[w] != s.pending
  {
  }

  lemma {:induction false} StaysWaiting(s: State, steps: seq<Step>)
    requires Inv(s) && s.phase == Waiting && IsRun(s, steps) && FinishSwap !in steps
    ensures var t := Final(s, steps);
            && Inv(t) && t.phase == Waiting && t.pending == s.pending && t.current == s.current
            && |t.workers| == |s.workers|
    decreases |steps|
  {
    if steps != [] {
      assert steps[0] in steps;
      StepKeepsInv(s, steps[0]);
      WaitingStep(s, steps[0]);
      StaysWaiting(Apply(s, steps[0]), steps[1..]);
    }
  }

  /** While a swap waits, a worker that refreshes or lets go once does not hold the old version again. */
  lemma {:induction false} StaysUnheld(s: State, steps: seq<Step>, w: nat)
    requires Inv(s) && s.phase == Waiting && IsRun(s, steps) && FinishSwap !in steps && w < |s.workers|
    requires s.workers[w] != s.pending || LetsGo(steps, w)
    ensures |Final(s, steps).workers| == |s.workers| && Final(s, steps).workers[w] != s.pending
    decreases |steps|
  {
    if steps != [] {
      var step := steps[0];
      assert step in steps;
      LetsGoNowOrLater(steps, w);
      StepKeepsInv(s, step);
      WaitingStep(s, step);
      if s.workers[w] != s.pending || step == Refresh(w) || step == Drop(w) { UnheldStep(s, step, w); }
      StaysUnheld(Apply(s, step), steps[1..], w);
    }
  }

  /** In every interleaving that follows, once each worker has refreshed or let go at least once the waiting swap can
      finish, and then the old version is collected and the new one is current. */
  lemma SwapFinishesAfterRefresh(s: State, before: seq<Step>, during: seq<Step>)
    requires Initial(s) && IsRun(s, before) && Final(s, before).phase == Waiting
    requires IsRun(Final(s, before), during) && FinishSwap !in during
    requires forall w :: 0 <= w < |Final(s, before).workers| ==> LetsGo(during, w)
    ensures var t := Final(s, before);
            var u := Final(t, during);
            && t.pending.Some? && Enabled(u, FinishSwap)
            && var r := Apply(u, FinishSwap);
              r.phase == Idle && r.pending == None && r.current == t.current && Collected(r, t.pending.value)
  {
    InitialInv(s);
    RunKeepsInv(s, before);
    var t := Final(s, before);
    StaysWaiting(t, during);
    var u := Final(t, during);
    forall w | 0 <= w < |u.workers| ensures u.workers[w] != u.pending { StaysUnheld(t, during, w); }
    UnheldCountsOne(u);
  }

  // ----- what a refresh gives -----

  predicate StepOf(step: Step, w: nat) { step == Refresh(w) || step == Drop(w) }

  predicate ClientStepOf(step: Step, c: nat) { step == Fetch(c) || step == Forget(c) }

  lemma {:induction false} WorkerKeeps(s: State, steps: seq<Step>, w: nat)
    requires w < |s.workers| && IsRun(s, steps) && forall step :: step in steps ==> !StepOf(step, w)
    ensures |Final(s, steps).workers| == |s.workers| && Final(s, steps).workers[w] == s.workers[w]
    decreases |steps|
  {
    if steps != [] {
      assert steps[0] in steps && forall step :: step in steps[1..] ==> step in steps;
      WorkerKeeps(Apply(s, steps[0]), steps[1..], w);
    }
  }

  lemma {:induction false} ClientKeeps(s: State, steps: seq<Step>, c: nat)
    requires c < |s.clients| && IsRun(s, steps) && forall step :: step in steps ==> !ClientStepOf(step, c)
    ensures |Final(s, steps).clients| == |s.clients| && Final(s, steps).clients[c] == s.clients[c]
    decreases |steps|
  {
    if steps != [] {
      assert steps[0] in steps && forall step :: step in steps[1..] ==> step in steps;
      ClientKeeps(Apply(s, steps[0]), steps[1..], c);
    }
  }

  /** In every run a worker holds the version that was current when it last refreshed, until its next step; and
      nothing after it has let go. */
  lemma RefreshGivesCurrent(s: State, before: seq<Step>, after: seq<Step>, w: nat)
    requires IsRun(s, before) && w < |Final(s, before).workers|
    requires forall step :: step in after ==> !StepOf(step, w)
    ensures IsRun(Apply(Final(s, before), Refresh(w)), after) ==>
              var u := Final(Apply(Final(s, before), Refresh(w)), after);
              w < |u.workers| && u.workers[w] == Some(Final(s, before).current)
    ensures IsRun(Apply(Final(s, before), Drop(w)), after) ==>
              var u := Final(Apply(Final(s, before), Drop(w)), after);
              w < |u.workers| && u.workers[w] == None
  {
    var t := Final(s, before);
    if IsRun(Apply(t, Refresh(w)), after) { WorkerKeeps(Apply(t, Refresh(w)), after, w); }
    if IsRun(Apply(t, Drop(w)), after) { WorkerKeeps(Apply(t, Drop(w)), after, w); }
  }

  /** The same for a client and the transaction. */
  lemma FetchGivesTransaction(s: State, before: seq<Step>, after: seq<Step>, c: nat)
    requires IsRun(s, before) && c < |Final(s, before).clients|
    requires forall step :: step in after ==> !ClientStepOf(step, c)
    ensures IsRun(Apply(Final(s, before), Fetch(c)), after) ==>
              var u := Final(Apply(Final(s, before), Fetch(c)), after);
              c < |u.clients| && u.clients[c] == Some(Final(s, before).transaction)
    ensures IsRun(Apply(Final(s, before), Forget(c)), after) ==>
              var u := Final(Apply(Final(s, before), Forget(c)), after);
              c < |u.clients| && u.clients[c] == None
  {
    var t := Final(s, before);
    if IsRun(Apply(t, Fetch(c)), after) { ClientKeeps(Apply(t, Fetch(c)), after, c); }
    if IsRun(Apply(t, Forget(c)), after) { ClientKeeps(Apply(t, Forget(c)), after, c); }
  }

  /** The worker's last step was a refresh. */
  predicate LastIsRefresh(steps: seq<Step>, w: nat)
  {
    exists k :: 0 <= k < |steps| && steps[k] == Refresh(w) && forall j :: k < j < |steps| ==> !StepOf(steps[j], w)
  }

  /** Once a swap waits and the last step of every worker since then was a refresh, all of them hold the new version. */
  lemma AllHoldNewVersion(s: State, before: seq<Step>, during: seq<Step>, w: nat)
    requires Initial(s) && IsRun(s, before) && Final(s, before).phase == Waiting
    requires IsRun(Final(s, before), during) && FinishSwap !in during
    requires w < |Final(s, before).workers| && LastIsRefresh(during, w)
    ensures var u := Final(Final(s, before), during);
            w < |u.workers| && u.workers[w] == Some(Final(s, before).current) && u.current == Final(s, before).current
  {
    InitialInv(s);
    RunKeepsInv(s, before);
    HoldsNewVersion(Final(s, before), during, w);
  }

  lemma HoldsNewVersion(t: State, during: seq<Step>, w: nat)
    requires Inv(t) && t.phase == Waiting && IsRun(t, during) && FinishSwap !in during
    requires w < |t.workers| && LastIsRefresh(during, w)
    ensures var u := Final(t, during);
            w < |u.workers| && u.workers[w] == Some(t.current) && u.current == t.current
  {
    var a, b := AtLastRefresh(during, w);
    KeepsRefreshed(t, a, w, b);
    StaysWaiting(t, a);
    StaysWaiting(t, during);
  }

  lemma AtLastRefresh(steps: seq<Step>, w: nat) returns (a: seq<Step>, b: seq<Step>)
    requires LastIsRefresh(steps, w)
    ensures steps == a + ([Refresh(w)] + b)
    ensures forall step :: step in b ==> !StepOf(step, w)
    ensures forall step :: step in a ==> step in steps
  {
    var k :| 0 <= k < |steps| && steps[k] == Refresh(w) && forall j :: k < j < |steps| ==> !StepOf(steps[j], w);
    a, b := steps[..k], steps[k + 1..];
    forall step | step in b ensures !StepOf(step, w) {
      var j :| 0 <= j < |b| && b[j] == step;
      assert b[j] == steps[k + 1 + j];
    }
  }

  lemma KeepsRefreshed(t: State, a: seq<Step>, w: nat, b: seq<Step>)
    requires IsRun(t, a + ([Refresh(w)] + b)) && w < |t.workers|
    requires forall step :: step in b ==> !StepOf(step, w)
    ensures var u := Final(t, a + ([Refresh(w)] + b));
            IsRun(t, a) && w < |u.workers| && u.workers[w] == Some(Final(t, a).current)
  {
    RunConcat(t, a, [Refresh(w)] + b);
    assert ([Refresh(w)] + b)[1..] == b;
    WorkerKeeps(Apply(Final(t, a), Refresh(w)), b, w);
  }

  // ----- what a reload installs -----

  predicate EndsBuilding(step: Step) { step.FailAndReset? || step.FailAndLeave? || step.Swap? }

  lemma {:induction false} StaysBuilding(s: State, steps: seq<Step>)
    requires s.phase == Building || s.phase == Copied
    requires IsRun(s, steps) && forall step :: step in steps ==> !EndsBuilding(step)
    ensures var t := Final(s, steps);
            (t.phase == Building || t.phase == Copied) && t.pending == s.pending && t.current == s.current
    decreases |steps|
  {
    if steps != [] {
      assert steps[0] in steps && forall step :: step in steps[1..] ==> step in steps;
      StaysBuilding(Apply(s, steps[0]), steps[1..]);
    }
  }

  /** A reload that reaches its swap, whatever happens meanwhile, makes current the version it began, which nobody had
      before, and keeps the replaced one until the swap is finished; the transaction is then a version of its own,
      newer than both. */
  lemma SwapInstallsWhatWasBegun(s: State, before: seq<Step>, during: seq<Step>)
    requires Initial(s) && IsRun(s, before) && Enabled(Final(s, before), BeginReload)
    requires IsRun(Apply(Final(s, before), BeginReload), during)
    requires forall step :: step in during ==> !EndsBuilding(step)
    requires Enabled(Final(Apply(Final(s, before), BeginReload), during), Swap)
    ensures var t := Final(s, before);
            var r := Apply(Final(Apply(t, BeginReload), during), Swap);
            && r.current == |t.counts| && r.pending == Some(t.current) && r.phase == Waiting
            && !Collected(r, r.current) && !Collected(r, t.current) && r.transaction > r.current
  {
    InitialInv(s);
    RunKeepsInv(s, before);
    var t := Final(s, before);
    StepKeepsInv(t, BeginReload);
    var b := Apply(t, BeginReload);
    StaysBuilding(b, during);
    CopiesNewTransaction(b, during);
    RunKeepsInv(b, during);
    StepKeepsInv(Final(b, during), Swap);
  }

  /** Copying and resetting make the transaction a version nobody had before. */
  lemma {:induction false} CopiesNewTransaction(s: State, steps: seq<Step>)
    requires Inv(s) && s.pending.Some? && IsRun(s, steps) && forall step :: step in steps ==> !EndsBuilding(step)
    requires s.phase == Building || s.phase == Copied
    requires s.phase == Copied ==> s.transaction > s.pending.value
    ensures var t := Final(s, steps);
            t.pending == s.pending && (t.phase == Copied ==> t.transaction > t.pending.value)
    decreases |steps|
  {
    if steps != [] {
      assert steps[0] in steps && forall step :: step in steps[1..] ==> step in steps;
      StepKeepsInv(s, steps[0]);
      CopiesNewTransaction(Apply(s, steps[0]), steps[1..]);
    }
  }
}
