/**
 When a failing check marks its host down.

 A host that is up tolerates a configured number of failed checks.  The failure counter is an 8-bit
 field.
 */
module RetryPolicy {

  /** A check that could not be made (no address, no data from the remote side) has no influence. */
  datatype Outcome = Ok | Failed | Skipped

  datatype Status = Status(up: bool, failures: nat)

  type Retries = r: nat | r < 256

  function Next(s: Status, o: Outcome, retries: Retries): Status
  {
    if o == Skipped then s
    else
      var failures := if s.up && o == Failed then (s.failures + 1) % 256 else s.failures;
      if failures > retries then Status(false, 0) else Status(s.up || o == Ok, failures)
  }

  function Run(s: Status, trace: seq<Outcome>, retries: Retries): Status
  {
    if trace == [] then s else Next(Run(s, trace[..|trace| - 1], retries), trace[|trace| - 1], retries)
  }

  /** The status record of one address. */
  class CheckStatus {
    var up: bool
    var softUp: bool
    var failures: nat

    predicate Valid() reads this { failures < 256 }

    /** Apply the outcome of one check. */
    method Update(o: Outcome, retries: Retries)
      requires Valid()
      modifies this
      ensures Valid() && Status(up, failures) == Next(old(Status(up, failures)), o, retries)
      ensures o != Skipped ==> softUp == (o == Ok)
    {
      if o == Skipped {
        return;
      }
      softUp := o == Ok;
      if up && !softUp {
        failures := (failures + 1) % 256;
      }
      if softUp {
        up := true;
      }
      // The counter is cleared on a success only if the host is still down, which the line above rules out.
      if !up && softUp && failures > 0 {
        failures := 0;
      }
      if failures > retries {
        up := false;
        failures := 0;
      }
    }
  }

  function Failures(trace: seq<Outcome>): nat
  {
    if trace == [] then 0 else Failures(trace[..|trace| - 1]) + (if trace[|trace| - 1] == Failed then 1 else 0)
  }

  /** Successes between failures do not count for anything: a host that came up stays up exactly while the
      failures since then, consecutive or not, are within the allowance. */
  lemma {:induction false} StaysUpIff(trace: seq<Outcome>, retries: Retries)
    requires retries < 255
    ensures Failures(trace) <= retries ==> Run(Status(true, 0), trace, retries) == Status(true, Failures(trace))
    ensures trace != [] && trace[|trace| - 1] == Failed && Failures(trace) == retries + 1 ==>
              Run(Status(true, 0), trace, retries) == Status(false, 0)
  {
    if trace != [] { StaysUpIff(trace[..|trace| - 1], retries); }
  }

  /** With the largest allowance the counter wraps before it is exceeded, and the host never goes down. */
  lemma {:induction false} LargestAllowanceNeverGoesDown(trace: seq<Outcome>, s: Status)
    requires s.up && s.failures < 256
    ensures Run(s, trace, 255).up && Run(s, trace, 255).failures < 256
  {
    if trace != [] { LargestAllowanceNeverGoesDown(trace[..|trace| - 1], s); }
  }

  // ----- the consecutive-failure reading of the setting -----

  /** A host goes down once more than `retries` checks in a row have failed. */
  function ConsecutiveNext(s: Status, o: Outcome, retries: Retries): Status
  {
    match o
    case Skipped => s
    case Ok => Status(true, 0)
    case Failed =>
      if !s.up then s else if s.failures + 1 > retries then Status(false, 0) else Status(true, s.failures + 1)
  }

  function Consecutive(s: Status, trace: seq<Outcome>, retries: Retries): Status
  {
    if trace == [] then s
    else ConsecutiveNext(Consecutive(s, trace[..|trace| - 1], retries), trace[|trace| - 1], retries)
  }

  lemma {:induction false} NoRetriesAgree(trace: seq<Outcome>)
    ensures Run(Status(false, 0), trace, 0) == Consecutive(Status(false, 0), trace, 0)
    ensures Run(Status(false, 0), trace, 0).failures == 0
  {
    if trace != [] { NoRetriesAgree(trace[..|trace| - 1]); }
  }

  /** k failures, each followed by a success. */
  function Alternating(k: nat): seq<Outcome>
  {
    if k == 0 then [Ok] else Alternating(k - 1) + [Failed, Ok]
  }

  lemma RunTwo(s: Status, t: seq<Outcome>, a: Outcome, b: Outcome, retries: Retries)
    ensures Run(s, t + [a, b], retries) == Next(Next(Run(s, t, retries), a, retries), b, retries)
    ensures Consecutive(s, t + [a, b], retries) ==
            ConsecutiveNext(ConsecutiveNext(Consecutive(s, t, retries), a, retries), b, retries)
  {
    assert t + [a, b] == (t + [a]) + [b];
    RunOne(s, t, a, retries);
    RunOne(s, t + [a], b, retries);
  }

  lemma AlternatingStep(t: seq<Outcome>, k: nat, retries: Retries)
    requires 1 <= k <= retries
    requires Run(Status(false, 0), t, retries) == Status(true, k - 1)
    requires Consecutive(Status(false, 0), t, retries) == Status(true, 0)
    ensures Run(Status(false, 0), t + [Failed, Ok], retries) == Status(true, k)
    ensures Consecutive(Status(false, 0), t + [Failed, Ok], retries) == Status(true, 0)
  {
    RunTwo(Status(false, 0), t, Failed, Ok, retries);
    OneMoreFailure(k, retries);
  }

  lemma {:induction false} AlternatingRuns(k: nat, retries: Retries)
    requires 1 <= retries && k <= retries
    ensures Run(Status(false, 0), Alternating(k), retries) == Status(true, k)
    ensures Consecutive(Status(false, 0), Alternating(k), retries) == Status(true, 0)
  {
    if k == 0 {
      assert [Ok][..0] == [];
    } else {
      AlternatingRuns(k - 1, retries);
      AlternatingStep(Alternating(k - 1), k, retries);
    }
  }

  lemma RunOne(s: Status, t: seq<Outcome>, a: Outcome, retries: Retries)
    ensures Run(s, t + [a], retries) == Next(Run(s, t, retries), a, retries)
    ensures Consecutive(s, t + [a], retries) == ConsecutiveNext(Consecutive(s, t, retries), a, retries)
  {
    assert (t + [a])[..|t|] == t;
  }

  lemma OneMoreFailure(k: nat, retries: Retries)
    requires 1 <= k <= retries
    ensures Next(Status(true, k - 1), Failed, retries) == Status(true, k)
    ensures ConsecutiveNext(Status(true, k - 1), Failed, retries) == Status(true, k)
  {
  }

  lemma FailingStep(t: seq<Outcome>, k: nat, retries: Retries)
    requires 1 <= k <= retries
    requires Run(Status(false, 0), t, retries) == Consecutive(Status(false, 0), t, retries) == Status(true, k - 1)
    ensures Run(Status(false, 0), t + [Failed], retries) == Status(true, k)
    ensures Consecutive(Status(false, 0), t + [Failed], retries) == Status(true, k)
  {
    RunOne(Status(false, 0), t, Failed, retries);
    OneMoreFailure(k, retries);
  }

  function Failing(k: nat): seq<Outcome>
  {
    if k == 0 then [Ok] else Failing(k - 1) + [Failed]
  }

  lemma {:induction false} FailingRuns(k: nat, retries: Retries)
    requires k <= retries
    ensures Consecutive(Status(false, 0), Failing(k), retries) == Status(true, k)
    ensures Run(Status(false, 0), Failing(k), retries) == Status(true, k)
  {
    if k == 0 {
      assert [Ok][..0] == [];
    } else {
      FailingRuns(k - 1, retries);
      FailingStep(Failing(k - 1), k, retries);
    }
  }

  /** Starting from a host that is not up, the code and the consecutive reading agree on whether it is now. */
  predicate SameVerdict(trace: seq<Outcome>, retries: Retries)
  {
    Run(Status(false, 0), trace, retries).up == Consecutive(Status(false, 0), trace, retries).up
  }

  /** A trace on which the code and the consecutive reading differ. */
  function Witness(retries: Retries): seq<Outcome>
  {
    if retries == 255 then Failing(retries + 1) else Alternating(retries) + [Failed]
  }

  lemma WitnessDiffers(retries: Retries)
    requires retries != 0
    ensures !SameVerdict(Witness(retries), retries)
  {
    if retries == 255 {
      FailingRuns(retries, retries);
      RunOne(Status(false, 0), Failing(retries), Failed, retries);
    } else {
      AlternatingRuns(retries, retries);
      RunOne(Status(false, 0), Alternating(retries), Failed, retries);
    }
  }

  /** The code implements the consecutive reading on all traces exactly when no retries are configured. */
  lemma AgreesWithConsecutiveIff(retries: Retries)
    ensures (forall trace :: SameVerdict(trace, retries)) <==> retries == 0
  {
    if retries == 0 {
      forall trace ensures SameVerdict(trace, retries) {
        NoRetriesAgree(trace);
      }
    } else {
      WitnessDiffers(retries);
    }
  }
}
