/** The per-bead loop of `loom run` and its retry machine, over a controller that
    follows its documented contract and may fail on any call. */
module RunLoop {
  import opened Prelude

  datatype AgentOutcome = Success | Failure(error: string)
  datatype RunMode = Once | Continuous
  datatype RunSummary = RunSummary(beadsProcessed: nat, beadsClarified: nat,
                                   moleculeComplete: bool, execedCheck: bool)
  datatype BeadResult = Done | Clarified(lastError: string)
  datatype RetryDecision = Retry(previousFailure: string) | GiveUp
  datatype RunError = ControllerFailed

  datatype RetryPolicy = RetryPolicy(maxRetries: nat) {
    function Decide(retriesUsed: nat, failure: string): RetryDecision {
      if retriesUsed >= maxRetries then GiveUp else Retry(failure)
    }
  }

  // ----------------------------------------------------------------- the trace

  datatype Call =
    | Attempt(bead: string, previousFailure: Option<string>, outcome: AgentOutcome)
    | Closed(bead: string)
    | ClarifyLabel(bead: string)
    | ExecCheck

  /** One bead's history: the errors of its failed attempts, then success or giving up. */
  datatype BeadRun = BeadRun(bead: string, errors: seq<string>, succeeded: bool)

  /** What attempt number `k` (from 0) is told: nothing at first, then exactly the error
      of the attempt before it. */
  function Told(errors: seq<string>, k: nat): Option<string>
    requires k <= |errors|
  {
    if k == 0 then None else Some(errors[k - 1])
  }

  /** The error a clarified bead carries: what its last attempt was told, not what that
      attempt answered. */
  function Reported(run: BeadRun): string {
    var told := if run.errors == [] then None else Told(run.errors, |run.errors| - 1);
    if told.Some? then told.value else ""
  }

  function FailedAttempts(bead: string, errors: seq<string>): seq<Call> {
    seq(|errors|, k requires 0 <= k < |errors| => Attempt(bead, Told(errors, k), Failure(errors[k])))
  }

  function Attempts(run: BeadRun): seq<Call> {
    FailedAttempts(run.bead, run.errors)
      + (if run.succeeded then [Attempt(run.bead, Told(run.errors, |run.errors|), Success)] else [])
  }

  function Tries(run: BeadRun): nat {
    |run.errors| + (if run.succeeded then 1 else 0)
  }

  function TotalTries(runs: seq<BeadRun>): nat {
    if runs == [] then 0 else TotalTries(runs[..|runs| - 1]) + Tries(runs[|runs| - 1])
  }

  function BeadTrace(run: BeadRun): seq<Call> {
    Attempts(run) + [if run.succeeded then Closed(run.bead) else ClarifyLabel(run.bead)]
  }

  function Trace(runs: seq<BeadRun>): seq<Call> {
    if runs == [] then [] else Trace(runs[..|runs| - 1]) + BeadTrace(runs[|runs| - 1])
  }

  /** A bead is given up exactly when the first attempt and every retry have failed. */
  predicate WithinBudget(run: BeadRun, maxRetries: nat) {
    if run.succeeded then |run.errors| <= maxRetries else |run.errors| == maxRetries + 1
  }

  predicate AllWithinBudget(runs: seq<BeadRun>, maxRetries: nat) {
    forall i :: 0 <= i < |runs| ==> WithinBudget(runs[i], maxRetries)
  }

  function BeadsOf(runs: seq<BeadRun>): seq<string> {
    seq(|runs|, i requires 0 <= i < |runs| => runs[i].bead)
  }

  function GivenUp(runs: seq<BeadRun>): nat {
    if runs == [] then 0
    else GivenUp(runs[..|runs| - 1]) + (if runs[|runs| - 1].succeeded then 0 else 1)
  }

  // ------------------------------------------------------------- the controller

  class Controller {
    /** What the agent does on its n-th attempt overall, if the call goes through. */
    const agent: nat -> Result<AgentOutcome, RunError>
    /** Which of the other calls fail. */
    const faults: nat -> bool
    /** The beads still to be pulled. */
    var ready: seq<string>
    var attempts: nat
    var calls: nat
    /** Every call that took effect, in order. */
    var trace: seq<Call>

    constructor (ready: seq<string>, agent: nat -> Result<AgentOutcome, RunError>, faults: nat -> bool)
      ensures this.ready == ready && this.agent == agent && this.faults == faults
      ensures trace == [] && attempts == 0 && calls == 0
    {
      this.ready, this.agent, this.faults := ready, agent, faults;
      trace, attempts, calls := [], 0, 0;
    }

    /** Everything since (`attempts0`, `calls0`) went through, or some call failed. */
    ghost predicate Went(attempts0: nat, calls0: nat, ok: bool)
      reads this`attempts, this`calls
    {
      && attempts0 <= attempts && calls0 <= calls
      && (ok <==> Smooth(attempts0, attempts, calls0, calls))
    }

    ghost predicate Smooth(attempts0: nat, attempts1: nat, calls0: nat, calls1: nat) {
      && (forall k :: attempts0 <= k < attempts1 ==> agent(k).Ok?)
      && (forall k :: calls0 <= k < calls1 ==> !faults(k))
    }

    lemma SmoothTwice(a0: nat, a1: nat, a2: nat, c0: nat, c1: nat, c2: nat)
      requires a0 <= a1 <= a2 && c0 <= c1 <= c2
      ensures Smooth(a0, a2, c0, c2) <==> Smooth(a0, a1, c0, c1) && Smooth(a1, a2, c1, c2)
    {
    }

    lemma OneCall(a: nat, c: nat)
      ensures Smooth(a, a, c, c + 1) <==> !faults(c)
    {
    }

    method NextReadyBead() returns (r: Result<Option<string>, RunError>)
      modifies this`ready, this`calls
      ensures calls == old(calls) + 1 && r.Err? == faults(old(calls))
      ensures r.Ok? && r.value.Some? ==> old(ready) == [r.value.value] + ready
      ensures r == Ok(None) ==> old(ready) == [] && ready == []
      ensures r.Err? ==> ready == old(ready)
    {
      calls := calls + 1;
      if faults(calls - 1) { return Err(ControllerFailed); }
      if ready == [] { return Ok(None); }
      r := Ok(Some(ready[0]));
      ready := ready[1..];
    }

    /** The history is what the agent answered from attempt `from` on. */
    ghost predicate Answered(run: BeadRun, from: nat) {
      && (forall k :: 0 <= k < |run.errors| ==> agent(from + k) == Ok(Failure(run.errors[k])))
      && (run.succeeded ==> agent(from + |run.errors|) == Ok(Success))
    }

    /** Every history is what the agent answered next after the histories before it. */
    ghost predicate AllAnswered(runs: seq<BeadRun>, from: nat) {
      forall i :: 0 <= i < |runs| ==> Answered(runs[i], from + TotalTries(runs[..i]))
    }

    method RunBead(bead: string, previousFailure: Option<string>) returns (r: Result<AgentOutcome, RunError>)
      modifies this`attempts, this`trace
      ensures attempts == old(attempts) + 1 && r == agent(old(attempts))
      ensures r.Ok? ==> trace == old(trace) + [Attempt(bead, previousFailure, r.value)]
      ensures r.Err? ==> trace == old(trace)
    {
      r := agent(attempts);
      attempts := attempts + 1;
      if r.Ok? { trace := trace + [Attempt(bead, previousFailure, r.value)]; }
    }

    /** `close_bead`, `apply_clarify` and `exec_check`: one effect, or a failure. */
    method Perform(call: Call) returns (ok: bool)
      modifies this`calls, this`trace
      ensures calls == old(calls) + 1 && ok == !faults(old(calls))
      ensures trace == old(trace) + (if ok then [call] else [])
    {
      ok := !faults(calls);
      calls := calls + 1;
      if ok { trace := trace + [call]; }
    }
  }

  /** Attempts without a conclusion: what an aborted bead leaves in the trace. */
  predicate OnlyAttempts(calls: seq<Call>) {
    forall i :: 0 <= i < |calls| ==> calls[i].Attempt?
  }

  method ProcessOneBead(c: Controller, bead: string, policy: RetryPolicy)
    returns (r: Result<BeadResult, RunError>, ghost run: BeadRun)
    modifies c`attempts, c`trace
    ensures c.trace == old(c.trace) + Attempts(run) && run.bead == bead
    ensures r.Ok? ==> WithinBudget(run, policy.maxRetries) && (r.value.Done? <==> run.succeeded)
    ensures r.Ok? && r.value.Clarified? ==> r.value.lastError == Reported(run)
    ensures r.Err? ==> !run.succeeded && |run.errors| <= policy.maxRetries
    ensures c.attempts == old(c.attempts) + Tries(run) + (if r.Err? then 1 else 0)
    ensures c.Answered(run, old(c.attempts)) && c.Went(old(c.attempts), c.calls, r.Ok?)
  {
    var retriesUsed := 0;
    var previousFailure: Option<string> := None;
    ghost var errors: seq<string> := [];
    while true
      invariant retriesUsed == |errors| <= policy.maxRetries
      invariant previousFailure == Told(errors, |errors|)
      invariant c.trace == old(c.trace) + FailedAttempts(bead, errors)
      invariant c.attempts == old(c.attempts) + |errors| && c.Went(old(c.attempts), c.calls, true)
      invariant c.Answered(BeadRun(bead, errors, false), old(c.attempts))
      decreases policy.maxRetries - retriesUsed
    {
      run := BeadRun(bead, errors, false);
      var outcome := c.RunBead(bead, previousFailure);
      if outcome.Err? { return Err(outcome.error), run; }
      if outcome.value.Success? {
        run := BeadRun(bead, errors, true);
        return Ok(Done), run;
      }
      var error := outcome.value.error;
      assert FailedAttempts(bead, errors + [error])
          == FailedAttempts(bead, errors) + [Attempt(bead, Told(errors, |errors|), Failure(error))];
      errors := errors + [error];
      match policy.Decide(retriesUsed, error)
      case Retry(pf) =>
        retriesUsed := retriesUsed + 1;
        previousFailure := Some(pf);
      case GiveUp =>
        run := BeadRun(bead, errors, false);
        return Ok(Clarified(if previousFailure.Some? then previousFailure.value else "")), run;
    }
  }

  /** `now` is `before` with exactly `calls` appended. */
  ghost predicate Grew(now: seq<Call>, before: seq<Call>, calls: seq<Call>) {
    now == before + calls
  }

  lemma GrewTwice(a: seq<Call>, b: seq<Call>, c: seq<Call>, x: seq<Call>, y: seq<Call>)
    requires Grew(b, a, x) && Grew(c, b, y)
    ensures Grew(c, a, x + y)
  {
  }

  // ------------------------------------------------------------------- the loop

  /** Where a loop started. */
  datatype Origin = Origin(trace: seq<Call>, ready: seq<string>, tries: nat, calls: nat)

  function Here(c: Controller): Origin
    reads c
  {
    Origin(c.trace, c.ready, c.attempts, c.calls)
  }

  /** The loop has come through `runs` without a failed call, and holds the `pulled`
      beads: runs within budget, beads in pull order, the trace exactly that of the runs
      and perhaps the hand-off, and every outcome the agent's own. */
  ghost predicate Reached(c: Controller, o: Origin, runs: seq<BeadRun>, pulled: seq<string>, maxRetries: nat,
                          handedOff: bool)
    reads c
  {
    && AllWithinBudget(runs, maxRetries) && o.ready == BeadsOf(runs) + pulled + c.ready
    && Grew(c.trace, o.trace, Trace(runs) + (if handedOff then [ExecCheck] else []))
    && c.attempts == o.tries + TotalTries(runs) && c.AllAnswered(runs, o.tries)
    && c.Went(o.tries, o.calls, true)
  }

  /** The bead whose run a failed call cut short is the next in pull order, and its history
      is what the agent answered next. */
  ghost predicate NextAborted(c: Controller, o: Origin, runs: seq<BeadRun>, run: BeadRun, maxRetries: nat) {
    && |runs| < |o.ready| && run.bead == o.ready[|runs|] && |run.errors| <= maxRetries + 1
    && c.Answered(run, o.tries + TotalTries(runs))
  }

  function AttemptsOf(aborted: Option<BeadRun>): seq<Call> {
    match aborted case None => [] case Some(run) => Attempts(run)
  }

  /** A call failed after `runs`: between two beads, or after some attempts at the next. */
  ghost predicate Aborted(c: Controller, o: Origin, runs: seq<BeadRun>, aborted: Option<BeadRun>, maxRetries: nat)
    reads c
  {
    && AllWithinBudget(runs, maxRetries) && BeadsOf(runs) <= o.ready
    && Grew(c.trace, o.trace, Trace(runs) + AttemptsOf(aborted))
    && c.AllAnswered(runs, o.tries)
    && (aborted.Some? ==> NextAborted(c, o, runs, aborted.value, maxRetries))
    && c.Went(o.tries, o.calls, false)
  }

  method PullBead(c: Controller, ghost o: Origin, ghost runs: seq<BeadRun>, ghost maxRetries: nat)
    returns (r: Result<Option<string>, RunError>)
    requires Reached(c, o, runs, [], maxRetries, false)
    modifies c`ready, c`calls
    ensures r.Err? ==> Aborted(c, o, runs, None, maxRetries)
    ensures r == Ok(None) ==> Reached(c, o, runs, [], maxRetries, false) && c.ready == []
    ensures r == Ok(None) && runs == [] ==> o.ready == []
    ensures r.Ok? && r.value.Some? ==> Reached(c, o, runs, [r.value.value], maxRetries, false)
    ensures r.Ok? && r.value.Some? ==> o.ready != [] && |c.ready| < |old(c.ready)|
  {
    hide Trace, TotalTries, Controller.AllAnswered, AllWithinBudget, Controller.Smooth;
    c.OneCall(c.attempts, c.calls);
    c.SmoothTwice(o.tries, c.attempts, c.attempts, o.calls, c.calls, c.calls + 1);
    r := c.NextReadyBead();
  }

  /** A bead run to its conclusion and concluded; `true` when it was clarified. */
  method FinishBead(c: Controller, bead: string, policy: RetryPolicy, ghost o: Origin, ghost runs: seq<BeadRun>)
    returns (r: Result<bool, RunError>, ghost run: BeadRun)
    requires Reached(c, o, runs, [bead], policy.maxRetries, false)
    modifies c
    ensures run.bead == bead && c.ready == old(c.ready)
    ensures r.Ok? ==> Reached(c, o, runs + [run], [], policy.maxRetries, false) && (r.value <==> !run.succeeded)
    ensures r.Err? ==> Aborted(c, o, runs, Some(run), policy.maxRetries)
  {
    hide Trace, BeadTrace, Attempts, BeadsOf, TotalTries, Tries, Grew, WithinBudget, Controller.Answered,
      Controller.AllAnswered, Controller.Smooth, OnlyAttempts, NextAborted;
    ghost var before, tries, calls := c.trace, c.attempts, c.calls;
    assert Trace(runs) + [] == Trace(runs);
    var result;
    result, run := ProcessOneBead(c, bead, policy);
    GrewBy(before, Attempts(run));
    GrewTwice(o.trace, before, c.trace, Trace(runs), Attempts(run));
    c.SmoothTwice(o.tries, tries, c.attempts, o.calls, calls, c.calls);
    NextInOrder(c, o, runs, run, c.ready, policy.maxRetries);
    if result.Err? { return Err(result.error), run; }
    c.OneCall(c.attempts, c.calls);
    c.SmoothTwice(o.tries, c.attempts, c.attempts, o.calls, c.calls, c.calls + 1);
    ghost var tried := c.trace;
    var call := if result.value.Done? then Closed(bead) else ClarifyLabel(bead);
    GrewBy(tried, [call]);
    GrewTwice(before, tried, tried + [call], Attempts(run), [call]);
    ConclusionOf(run);
    GrewTwice(o.trace, before, tried + [call], Trace(runs), BeadTrace(run));
    OneMoreRun(runs, run);
    OneMoreAnswered(c, runs, run, o.tries);
    var ok := c.Perform(call);
    assert !ok ==> c.trace == tried;
    if !ok { return Err(ControllerFailed), run; }
    assert Trace(runs + [run]) + [] == Trace(runs) + BeadTrace(run);
    assert BeadsOf(runs + [run]) + [] + c.ready == BeadsOf(runs) + [bead] + c.ready;
    r := Ok(result.value.Clarified?);
  }

  lemma NextInOrder(c: Controller, o: Origin, runs: seq<BeadRun>, run: BeadRun, later: seq<string>, maxRetries: nat)
    requires o.ready == BeadsOf(runs) + [run.bead] + later && c.Answered(run, o.tries + TotalTries(runs))
    requires WithinBudget(run, maxRetries) || |run.errors| <= maxRetries
    ensures NextAborted(c, o, runs, run, maxRetries)
  {
    hide TotalTries, Controller.Answered;
  }

  lemma ConclusionOf(run: BeadRun)
    ensures BeadTrace(run) == Attempts(run) + [if run.succeeded then Closed(run.bead) else ClarifyLabel(run.bead)]
  {
  }

  lemma OneMoreRun(runs: seq<BeadRun>, run: BeadRun)
    ensures BeadsOf(runs + [run]) == BeadsOf(runs) + [run.bead]
    ensures Trace(runs + [run]) == Trace(runs) + BeadTrace(run)
  {
    hide BeadTrace;
    assert (runs + [run])[..|runs|] == runs;
  }

  lemma OneMoreGivenUp(runs: seq<BeadRun>, run: BeadRun)
    ensures GivenUp(runs + [run]) == GivenUp(runs) + (if run.succeeded then 0 else 1)
  {
    assert (runs + [run])[..|runs|] == runs;
  }

  lemma OneMoreAnswered(c: Controller, runs: seq<BeadRun>, run: BeadRun, from: nat)
    requires c.AllAnswered(runs, from) && c.Answered(run, from + TotalTries(runs))
    ensures c.AllAnswered(runs + [run], from)
    ensures TotalTries(runs + [run]) == TotalTries(runs) + Tries(run)
  {
    hide Controller.Answered, TotalTries;
    var more := runs + [run];
    assert more[..|runs|] == runs;
    LastTries(runs, run);
    forall i | 0 <= i < |more| ensures c.Answered(more[i], from + TotalTries(more[..i])) {
      if i < |runs| { assert more[..i] == runs[..i]; }
    }
  }

  lemma LastTries(runs: seq<BeadRun>, run: BeadRun)
    ensures TotalTries(runs + [run]) == TotalTries(runs) + Tries(run)
  {
    assert (runs + [run])[..|runs|] == runs;
  }

  method HandOff(c: Controller, ghost o: Origin, ghost runs: seq<BeadRun>, ghost maxRetries: nat) returns (ok: bool)
    requires Reached(c, o, runs, [], maxRetries, false)
    modifies c`calls, c`trace
    ensures ok ==> Reached(c, o, runs, [], maxRetries, true) && c.ready == old(c.ready)
    ensures !ok ==> Aborted(c, o, runs, None, maxRetries)
  {
    hide Trace, BeadsOf, TotalTries, Controller.AllAnswered, AllWithinBudget, Controller.Smooth;
    c.OneCall(c.attempts, c.calls);
    c.SmoothTwice(o.tries, c.attempts, c.attempts, o.calls, c.calls, c.calls + 1);
    ok := c.Perform(ExecCheck);
  }

  /** The whole loop: beads in pull order, each with its own trace, then at most one
      hand-off to the check, last. */
  method RunBeads(c: Controller, mode: RunMode, policy: RetryPolicy)
    returns (r: Result<RunSummary, RunError>, ghost runs: seq<BeadRun>, ghost aborted: Option<BeadRun>)
    modifies c
    ensures r.Ok? ==> Reached(c, old(Here(c)), runs, [], policy.maxRetries, r.value.execedCheck)
    ensures r.Err? ==> Aborted(c, old(Here(c)), runs, aborted, policy.maxRetries)
    ensures r.Ok? ==> r.value.beadsProcessed == |runs| && r.value.beadsClarified == GivenUp(runs)
    ensures r.Ok? ==> (r.value.execedCheck <==> mode.Continuous? && r.value.moleculeComplete)
    ensures r.Ok? && r.value.moleculeComplete ==> c.ready == []
    ensures r.Ok? && mode.Continuous? ==> r.value.moleculeComplete
    ensures r.Ok? && mode.Once? ==>
      |runs| == (if old(c.ready) == [] then 0 else 1) && (r.value.moleculeComplete <==> old(c.ready) == [])
  {
    var summary := RunSummary(0, 0, false, false);
    runs, aborted := [], None;
    ghost var o := Here(c);
    assert Reached(c, o, runs, [], policy.maxRetries, false) by {
      assert BeadsOf(runs) == [] && TotalTries(runs) == 0 && c.AllAnswered(runs, c.attempts);
    }
    assert GivenUp(runs) == 0;
    hide *;
    while true
      invariant Reached(c, o, runs, [], policy.maxRetries, false)
      invariant summary == RunSummary(|runs|, GivenUp(runs), false, false)
      invariant mode.Once? ==> runs == []
      decreases |c.ready|
    {
      var next := PullBead(c, o, runs, policy.maxRetries);
      if next.Err? { return Err(next.error), runs, None; }
      if next.value.None? {
        if mode.Once? { return Ok(summary.(moleculeComplete := true)), runs, None; }
        var ok := HandOff(c, o, runs, policy.maxRetries);
        if !ok { return Err(ControllerFailed), runs, None; }
        summary := summary.(moleculeComplete := true, execedCheck := true);
        return Ok(summary), runs, None;
      }
      var clarified;
      ghost var run;
      clarified, run := FinishBead(c, next.value.value, policy, o, runs);
      if clarified.Err? { return Err(clarified.error), runs, Some(run); }
      OneMoreGivenUp(runs, run);
      runs := runs + [run];
      summary := summary.(beadsProcessed := summary.beadsProcessed + 1);
      if clarified.value { summary := summary.(beadsClarified := summary.beadsClarified + 1); }
      if mode.Once? { return Ok(summary), runs, None; }
    }
  }

  lemma GrewBy(a: seq<Call>, calls: seq<Call>)
    ensures Grew(a + calls, a, calls)
  {
  }

  lemma AttemptsOnly(run: BeadRun)
    ensures OnlyAttempts(Attempts(run))
  {
  }

  // -------------------------------------------------------- reading the trace

  /** The conclusions in a trace, in order. */
  function Conclusions(calls: seq<Call>): seq<Call> {
    if calls == [] then [] else Concluding(calls[0]) + Conclusions(calls[1..])
  }

  function Concluding(call: Call): seq<Call> {
    if call.Closed? || call.ClarifyLabel? then [call] else []
  }

  function Concluded(runs: seq<BeadRun>): seq<Call> {
    seq(|runs|, i requires 0 <= i < |runs| =>
      if runs[i].succeeded then Closed(runs[i].bead) else ClarifyLabel(runs[i].bead))
  }

  lemma {:induction false} ConclusionsConcat(a: seq<Call>, b: seq<Call>)
    ensures Conclusions(a + b) == Conclusions(a) + Conclusions(b)
  {
    hide Conclusions, Concluding;
    if a == [] {
      assert a + b == b;
      NoConclusions(a);
    } else {
      var first, rest := a[0], a[1..];
      ConclusionsConcat(rest, b);
      assert a == [first] + rest && a + b == [first] + (rest + b);
      ConclusionsCons(first, rest);
      ConclusionsCons(first, rest + b);
    }
  }

  lemma ConclusionsCons(first: Call, rest: seq<Call>)
    ensures Conclusions([first] + rest) == Concluding(first) + Conclusions(rest)
  {
    assert ([first] + rest)[1..] == rest;
  }

  lemma {:induction false} NoConclusions(calls: seq<Call>)
    requires OnlyAttempts(calls)
    ensures Conclusions(calls) == []
  {
    if calls != [] { NoConclusions(calls[1..]); }
  }

  /** Every pulled bead is closed or clarified exactly once, in pull order, and clarified
      exactly if all its attempts failed. */
  lemma {:induction false} ConcludedOnceInOrder(runs: seq<BeadRun>)
    ensures Conclusions(Trace(runs)) == Concluded(runs)
  {
    hide Conclusions, BeadTrace;
    if runs == [] {
      assert Trace(runs) == [] && Concluded(runs) == [];
      NoConclusions([]);
    } else {
      var init, last := runs[..|runs| - 1], runs[|runs| - 1];
      ConcludedOnceInOrder(init);
      ConclusionsConcat(Trace(init), BeadTrace(last));
      ConclusionOfRun(last);
      assert Concluded(runs) == Concluded(init) + Concluded([last]);
    }
  }

  lemma ConclusionOfRun(run: BeadRun)
    ensures Conclusions(BeadTrace(run)) == Concluded([run])
  {
    hide Attempts;
    var end := [if run.succeeded then Closed(run.bead) else ClarifyLabel(run.bead)];
    AttemptsOnly(run);
    NoConclusions(Attempts(run));
    ConclusionsConcat(Attempts(run), end);
    var none: seq<Call> := [];
    assert end[1..] == none;
    assert Concluded([run]) == end;
  }

  /** The reported "last" error is what the agent answered last only by coincidence: if its
      last two answers agree, or, without retries, if its only answer was empty. */
  lemma ReportedIsLastIff(c: Controller, run: BeadRun, from: nat, maxRetries: nat)
    requires WithinBudget(run, maxRetries) && !run.succeeded && c.Answered(run, from)
    ensures c.agent(from + maxRetries) == Ok(Failure(Reported(run))) <==>
      c.agent(from + maxRetries) == (if maxRetries == 0 then Ok(Failure("")) else c.agent(from + maxRetries - 1))
  {
    assert maxRetries > 0 ==> Told(run.errors, maxRetries) == Some(run.errors[maxRetries - 1]);
    assert c.agent(from + maxRetries) == Ok(Failure(run.errors[maxRetries]));
  }

  /** Two attempts with different errors: the first one is reported. */
  lemma ReportedIsNotLast(bead: string, first: string, second: string)
    requires first != second
    ensures var run := BeadRun(bead, [first, second], false);
            WithinBudget(run, 1) && Reported(run) == first != run.errors[1]
  {
    assert Told([first, second], 1) == Some(first);
  }

  /** Read off the calls: the first attempt is told nothing, each later one exactly the error
      of the one before, and only the last can have succeeded. */
  lemma AttemptsThread(run: BeadRun, k: nat)
    requires k < |Attempts(run)|
    ensures |Attempts(run)| == Tries(run)
    ensures var calls := Attempts(run);
            && calls[k].Attempt? && calls[k].bead == run.bead
            && (k == 0 ==> calls[k].previousFailure == None)
            && (k > 0 ==> calls[k - 1].Attempt? && calls[k - 1].outcome.Failure?
                          && calls[k].previousFailure == Some(calls[k - 1].outcome.error))
            && (calls[k].outcome.Success? <==> run.succeeded && k == |calls| - 1)
  {
  }

  /** Within its budget a bead has at most `max_retries + 1` attempts, and it is given up
      exactly if it had them all and all failed. */
  lemma BudgetMeans(run: BeadRun, maxRetries: nat)
    requires WithinBudget(run, maxRetries)
    ensures 1 <= |Attempts(run)| <= maxRetries + 1
    ensures var calls := Attempts(run);
            !run.succeeded <==>
              && |calls| == maxRetries + 1
              && forall k :: 0 <= k < |calls| ==> calls[k].Attempt? && calls[k].outcome.Failure?
  {
    hide Told;
    var calls := Attempts(run);
    AttemptsThread(run, |calls| - 1);
    forall k | 0 <= k < |calls| ensures calls[k].Attempt? && (calls[k].outcome.Success? ==> run.succeeded) {
      AttemptsThread(run, k);
    }
  }

  function ClarifyLabels(calls: seq<Call>): nat {
    if calls == [] then 0
    else ClarifyLabels(calls[..|calls| - 1]) + (if calls[|calls| - 1].ClarifyLabel? then 1 else 0)
  }

  /** The beads counted as clarified are those labelled. */
  lemma {:induction false} ClarifiedAreLabelled(runs: seq<BeadRun>)
    ensures GivenUp(runs) == ClarifyLabels(Concluded(runs))
  {
    if runs != [] {
      var init, last := runs[..|runs| - 1], runs[|runs| - 1];
      ClarifiedAreLabelled(init);
      assert Concluded(runs)[..|init|] == Concluded(init);
    }
  }
}
