/**
 The spin lock and its scope guard.

 First the bare lock, where any thread may clear the flag; then threads made of nested guarded
 scopes, whose guards are released on the way out of a scope however it is left.
 */
module SpinLock {

  type ThreadId = nat
  type LockId = nat

  // ----- the bare lock: test_and_set and clear -----

  /** `owners` are the threads that have returned from lock() and not yet called unlock(). */
  datatype Bare = Bare(locked: bool, owners: set<ThreadId>)

  datatype BareStep = TestAndSet(tid: ThreadId) | Clear(tid: ThreadId)

  /** One atomic operation; a test_and_set that finds the flag set leaves the thread spinning. */
  function BareApply(s: Bare, step: BareStep): Bare
  {
    match step
    case TestAndSet(tid) => if s.locked then s else Bare(true, s.owners + {tid})
    case Clear(tid) => Bare(false, s.owners - {tid})
  }

  function BareFinal(s: Bare, steps: seq<BareStep>): Bare
    decreases |steps|
  {
    if steps == [] then s else BareFinal(BareApply(s, steps[0]), steps[1..])
  }

  /** The flag is set exactly when one thread owns the lock. */
  predicate Exclusive(s: Bare)
  {
    |s.owners| == if s.locked then 1 else 0
  }

  /** The lock's usage rule: only an owner clears the flag. */
  predicate Disciplined(s: Bare, steps: seq<BareStep>)
    decreases |steps|
  {
    steps == [] ||
    ((steps[0].Clear? ==> steps[0].tid in s.owners) && Disciplined(BareApply(s, steps[0]), steps[1..]))
  }

  lemma SingletonOwner(owners: set<ThreadId>, tid: ThreadId)
    requires |owners| == 1 && tid in owners
    ensures owners == {tid}
  {
    assert |owners - {tid}| == 0;
  }

  lemma {:induction false} DisciplineGivesExclusion(s: Bare, steps: seq<BareStep>)
    requires Exclusive(s) && Disciplined(s, steps)
    ensures Exclusive(BareFinal(s, steps))
    decreases |steps|
  {
    if steps != [] {
      if steps[0].Clear? { SingletonOwner(s.owners, steps[0].tid); }
      DisciplineGivesExclusion(BareApply(s, steps[0]), steps[1..]);
    }
  }

  /** One clear by a thread that does not own a held lock ends exclusion at once. */
  lemma ForeignClearBreaks(s: Bare, tid: ThreadId)
    requires Exclusive(s)
    ensures Exclusive(BareApply(s, Clear(tid))) <==> !s.locked || tid in s.owners
  {
    if s.locked && tid in s.owners {
      SingletonOwner(s.owners, tid);
    } else if s.locked {
      assert s.owners - {tid} == s.owners;
    } else {
      assert s.owners - {tid} == {};
    }
  }

  // ----- guarded scopes -----

  /** Code between guards; Leave is a return or an exception that unwinds every enclosing scope. */
  datatype Stmt = Act | Leave | Guard(lock: LockId, body: seq<Stmt>)

  /** A live guard and the code to run after its scope ends. */
  datatype Frame = Frame(lock: LockId, after: seq<Stmt>)

  datatype Thread = Thread(frames: seq<Frame>, code: seq<Stmt>, unwinding: bool)

  datatype System = System(flags: set<LockId>, threads: map<ThreadId, Thread>)

  /** One step of one thread.  A guard that finds its flag set spins; the end of a scope, reached
      normally or by unwinding, runs the innermost guard's destructor. */
  function StepThread(s: System, tid: ThreadId): System
    requires tid in s.threads
  {
    var t := s.threads[tid];
    if t.unwinding || t.code == [] then
      if t.frames == [] then s
      else
        var f := t.frames[|t.frames| - 1];
        System(s.flags - {f.lock},
               s.threads[tid := Thread(t.frames[..|t.frames| - 1], f.after, t.unwinding)])
    else
      match t.code[0]
      case Act => s.(threads := s.threads[tid := t.(code := t.code[1..])])
      case Leave => s.(threads := s.threads[tid := t.(unwinding := true)])
      case Guard(l, body) =>
        if l in s.flags then s
        else System(s.flags + {l},
                    s.threads[tid := Thread(t.frames + [Frame(l, t.code[1..])], body, false)])
  }

  function RunThreads(s: System, schedule: seq<ThreadId>): System
    requires forall i :: 0 <= i < |schedule| ==> schedule[i] in s.threads
    decreases |schedule|
  {
    if schedule == [] then s else RunThreads(StepThread(s, schedule[0]), schedule[1..])
  }

  predicate Initial(s: System)
  {
    s.flags == {} && forall t :: t in s.threads ==> s.threads[t].frames == []
  }

  /** Thread tid has a live guard, number i from the outermost, on lock l. */
  predicate Holds(s: System, tid: ThreadId, i: nat, l: LockId)
  {
    tid in s.threads && i < |s.threads[tid].frames| && s.threads[tid].frames[i].lock == l
  }

  /** Every set flag has a live guard, every live guard has its flag set, and no lock has two. */
  ghost predicate LockInv(s: System)
  {
    && (forall l :: l in s.flags ==> exists t, i :: Holds(s, t, i, l))
    && (forall t, i, l :: Holds(s, t, i, l) ==> l in s.flags)
    && (forall t, i, u, j, l :: Holds(s, t, i, l) && Holds(s, u, j, l) ==> t == u && i == j)
  }

  lemma EndOfScopeKeepsInv(s: System, tid: ThreadId)
    requires LockInv(s) && tid in s.threads && s.threads[tid].frames != []
    requires s.threads[tid].unwinding || s.threads[tid].code == []
    ensures LockInv(StepThread(s, tid))
  {
    var r := StepThread(s, tid);
    var top := |s.threads[tid].frames| - 1;
    var gone := s.threads[tid].frames[top].lock;
    assert Holds(s, tid, top, gone);
    forall t, i, l | Holds(r, t, i, l) ensures Holds(s, t, i, l) && l != gone {
      assert Holds(s, t, i, l);
    }
    forall l | l in r.flags ensures exists t, i :: Holds(r, t, i, l) {
      var t, i :| Holds(s, t, i, l);
      assert Holds(r, t, i, l);
    }
  }

  lemma AcquireKeepsInv(s: System, tid: ThreadId, l: LockId, body: seq<Stmt>)
    requires LockInv(s) && tid in s.threads && l !in s.flags
    requires var t := s.threads[tid]; !t.unwinding && t.code != [] && t.code[0] == Guard(l, body)
    ensures LockInv(StepThread(s, tid))
  {
    var r := StepThread(s, tid);
    var top := |s.threads[tid].frames|;
    assert Holds(r, tid, top, l);
    forall t, i, k | Holds(r, t, i, k) ensures Holds(s, t, i, k) || (t == tid && i == top && k == l) {
    }
    forall k | k in r.flags ensures exists t, i :: Holds(r, t, i, k) {
      if k != l {
        var t, i :| Holds(s, t, i, k);
        assert Holds(r, t, i, k);
      }
    }
  }

  lemma SameGuardsKeepInv(s: System, r: System)
    requires LockInv(s) && r.flags == s.flags && r.threads.Keys == s.threads.Keys
    requires forall t :: t in s.threads ==> r.threads[t].frames == s.threads[t].frames
    ensures LockInv(r)
  {
    assert forall t, i, l :: Holds(r, t, i, l) <==> Holds(s, t, i, l);
    forall l | l in r.flags ensures exists t, i :: Holds(r, t, i, l) {
      var t, i :| Holds(s, t, i, l);
      assert Holds(r, t, i, l);
    }
  }

  lemma StepKeepsInv(s: System, tid: ThreadId)
    requires LockInv(s) && tid in s.threads
    ensures LockInv(StepThread(s, tid))
  {
    var t := s.threads[tid];
    if t.unwinding || t.code == [] {
      if t.frames != [] { EndOfScopeKeepsInv(s, tid); }
    } else if t.code[0].Guard? {
      if t.code[0].lock !in s.flags { AcquireKeepsInv(s, tid, t.code[0].lock, t.code[0].body); }
    } else {
      SameGuardsKeepInv(s, StepThread(s, tid));
    }
  }

  lemma {:induction false} RunKeepsInv(s: System, schedule: seq<ThreadId>)
    requires LockInv(s) && forall i :: 0 <= i < |schedule| ==> schedule[i] in s.threads
    ensures LockInv(RunThreads(s, schedule))
    decreases |schedule|
  {
    if schedule != [] {
      StepKeepsInv(s, schedule[0]);
      RunKeepsInv(StepThread(s, schedule[0]), schedule[1..]);
    }
  }

  /** For any threads, any nesting of guards, any way of leaving scopes and any schedule: a lock's flag
      is set exactly when some thread is inside a scope guarding it, and never two scopes are. */
  lemma MutualExclusion(s: System, schedule: seq<ThreadId>)
    requires Initial(s) && forall i :: 0 <= i < |schedule| ==> schedule[i] in s.threads
    ensures LockInv(RunThreads(s, schedule))
  {
    assert forall t, i, l :: !Holds(s, t, i, l);
    RunKeepsInv(s, schedule);
  }

  /** The lock is not recursive: a thread about to guard a lock it already guards never moves again,
      whatever the others do. */
  lemma {:induction false} RelockNeverProceeds(s: System, tid: ThreadId, i: nat, l: LockId, schedule: seq<ThreadId>)
    requires LockInv(s) && Holds(s, tid, i, l)
    requires var t := s.threads[tid]; !t.unwinding && t.code != [] && t.code[0].Guard? && t.code[0].lock == l
    requires forall k :: 0 <= k < |schedule| ==> schedule[k] in s.threads
    ensures tid in RunThreads(s, schedule).threads
    ensures RunThreads(s, schedule).threads[tid] == s.threads[tid]
    decreases |schedule|
  {
    if schedule != [] {
      var r := StepThread(s, schedule[0]);
      StepKeepsInv(s, schedule[0]);
      assert l in s.flags;
      assert r.threads[tid] == s.threads[tid];
      assert Holds(r, tid, i, l);
      RelockNeverProceeds(r, tid, i, l, schedule[1..]);
    }
  }

  // ----- scopes that end -----

  /** The same thread n times. */
  function Alone(tid: ThreadId, n: nat): (r: seq<ThreadId>)
    ensures |r| == n && forall i :: 0 <= i < n ==> r[i] == tid
  {
    seq(n, _ => tid)
  }

  lemma AloneTail(tid: ThreadId, n: nat)
    requires n > 0
    ensures Alone(tid, n)[0] == tid && Alone(tid, n)[1..] == Alone(tid, n - 1)
  {
  }

  function LocksOf(frames: seq<Frame>): set<LockId>
  {
    set i | 0 <= i < |frames| :: frames[i].lock
  }

  lemma LocksWithTop(frames: seq<Frame>)
    requires frames != []
    ensures LocksOf(frames) == LocksOf(frames[..|frames| - 1]) + {frames[|frames| - 1].lock}
  {
    var n := |frames| - 1;
    forall l ensures l in LocksOf(frames) <==> l in LocksOf(frames[..n]) + {frames[n].lock} {
      if l in LocksOf(frames) {
        var i :| 0 <= i < |frames| && frames[i].lock == l;
        if i < n { assert frames[..n][i].lock == l; }
      }
      if l in LocksOf(frames[..n]) {
        var i :| 0 <= i < n && frames[..n][i].lock == l;
        assert frames[i].lock == l;
      }
    }
  }

  /** A thread that leaves its scopes by a return or an exception releases every lock it guards, however many are
      nested, and touches no other. */
  lemma {:induction false} UnwindingReleasesAll(s: System, tid: ThreadId)
    requires tid in s.threads && s.threads[tid].unwinding
    ensures var frames := s.threads[tid].frames;
            var r := RunThreads(s, Alone(tid, |frames|));
            && r.flags == s.flags - LocksOf(frames)
            && r.threads.Keys == s.threads.Keys && r.threads[tid].frames == [] && r.threads[tid].unwinding
            && forall t :: t in s.threads && t != tid ==> r.threads[t] == s.threads[t]
    decreases |s.threads[tid].frames|
  {
    var frames := s.threads[tid].frames;
    if frames != [] {
      var n := |frames| - 1;
      var r := StepThread(s, tid);
      AloneTail(tid, |frames|);
      assert r.threads[tid].frames == frames[..n];
      UnwindingReleasesAll(r, tid);
      LocksWithTop(frames);
    }
  }

  /** So a return or an exception inside nested scopes ends them all, without running what is left of their code. */
  lemma LeaveEndsAllScopes(s: System, tid: ThreadId)
    requires tid in s.threads
    requires var t := s.threads[tid]; !t.unwinding && t.code != [] && t.code[0] == Leave
    ensures var frames := s.threads[tid].frames;
            var r := RunThreads(s, Alone(tid, |frames| + 1));
            && r.flags == s.flags - LocksOf(frames)
            && r.threads.Keys == s.threads.Keys && r.threads[tid].frames == [] && StepThread(r, tid) == r
            && forall t :: t in s.threads && t != tid ==> r.threads[t] == s.threads[t]
  {
    AloneTail(tid, |s.threads[tid].frames| + 1);
    UnwindingReleasesAll(StepThread(s, tid), tid);
  }

  predicate Acts(code: seq<Stmt>) { forall i :: 0 <= i < |code| ==> code[i] == Act }

  /** The body of a scope, then its end: the guard's lock is released and the code after the scope comes next. */
  lemma {:induction false} BodyThenRelease(s: System, tid: ThreadId)
    requires tid in s.threads && s.threads[tid].frames != [] && Acts(s.threads[tid].code)
    requires !s.threads[tid].unwinding
    ensures var t := s.threads[tid];
            var outer := t.frames[..|t.frames| - 1];
            var top := t.frames[|t.frames| - 1];
            RunThreads(s, Alone(tid, |t.code| + 1)) ==
            System(s.flags - {top.lock}, s.threads[tid := Thread(outer, top.after, false)])
    decreases |s.threads[tid].code|
  {
    var t := s.threads[tid];
    AloneTail(tid, |t.code| + 1);
    var r := StepThread(s, tid);
    if t.code == [] {
      assert RunThreads(r, Alone(tid, 0)) == r;
    } else {
      assert t.code[0] == Act;
      assert forall i :: 0 <= i < |t.code[1..]| ==> t.code[1..][i] == t.code[i + 1];
      assert r.threads[tid] == t.(code := t.code[1..]);
      BodyThenRelease(r, tid);
      var done := Thread(t.frames[..|t.frames| - 1], t.frames[|t.frames| - 1].after, false);
      assert r.threads[tid := done] == s.threads[tid := done];
    }
  }

  /** A guard on a free lock is entered, its scope runs with the lock held, and at its end everything is as before
      but for the code. */
  lemma GuardedScopeRuns(s: System, tid: ThreadId, l: LockId, body: seq<Stmt>)
    requires tid in s.threads && l !in s.flags && Acts(body)
    requires var t := s.threads[tid]; !t.unwinding && t.code != [] && t.code[0] == Guard(l, body)
    ensures l in RunThreads(s, Alone(tid, 1)).flags
    ensures RunThreads(s, Alone(tid, |body| + 2)) ==
            s.(threads := s.threads[tid := s.threads[tid].(code := s.threads[tid].code[1..])])
  {
    var t := s.threads[tid];
    var r := StepThread(s, tid);
    AloneTail(tid, |body| + 2);
    AloneTail(tid, 1);
    assert RunThreads(r, Alone(tid, 0)) == r;
    var frames := t.frames + [Frame(l, t.code[1..])];
    assert r.threads[tid] == Thread(frames, body, false);
    assert frames[..|frames| - 1] == t.frames;
    BodyThenRelease(r, tid);
    assert s.flags + {l} - {l} == s.flags;
  }
}
