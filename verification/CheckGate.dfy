/** The push gate of `loom check` with its iteration counter, and the run/check chain
    it drives. */
module CheckGate {
  import opened Prelude
  import opened RunLoop

  datatype Bead = Bead(id: string, clarify: bool)

  datatype ReviewOutcome = Complete | Incomplete(detail: string)

  datatype CheckError = ReviewIncomplete(detail: string) | CallFailed

  datatype CheckVerdict =
    | Clean
    | Clarify(clarifyIds: seq<string>)
    | AutoIterate(newBeadIds: seq<string>, nextIteration: nat)
    | IterationCap(newBeadIds: seq<string>, escalateId: string, cap: nat)

  datatype CheckResult =
    | Pushed
    | Clarified(clarifyIds: seq<string>)
    | AutoIterated(nextIteration: nat)
    | Escalated(escalateId: string, cap: nat)

  /** The calls of the controller that change something. */
  datatype Effect =
    | ResetIterationCount
    | SetIterationCount(next: nat)
    | ApplyClarify(bead: string)
    | GitPush
    | BeadsPush
    | ExecRun

  function Ids(beads: seq<Bead>): seq<string> {
    seq(|beads|, i requires 0 <= i < |beads| => beads[i].id)
  }

  function ClarifyIds(beads: seq<Bead>): seq<string> {
    if beads == [] then []
    else (if beads[0].clarify then [beads[0].id] else []) + ClarifyIds(beads[1..])
  }

  /** `diff_new_bead_ids`: what of `after` is not in `before`, in `after`'s order. */
  function DiffNewBeadIds(before: seq<string>, after: seq<string>): seq<string> {
    if after == [] then []
    else (if after[0] in before then [] else [after[0]]) + DiffNewBeadIds(before, after[1..])
  }

  lemma {:induction false} DiffMembers(before: seq<string>, after: seq<string>)
    ensures forall id :: id in DiffNewBeadIds(before, after) <==> id in after && id !in before
  {
    if after != [] {
      DiffMembers(before, after[1..]);
      assert after == [after[0]] + after[1..];
    }
  }

  /** The last new id is the last id of `after` that `before` does not have. */
  lemma {:induction false} DiffLast(before: seq<string>, after: seq<string>) returns (k: nat)
    requires DiffNewBeadIds(before, after) != []
    ensures var d := DiffNewBeadIds(before, after);
            && k < |after| && after[k] == d[|d| - 1] && after[k] !in before
            && forall j :: k < j < |after| ==> after[j] in before
  {
    var rest := DiffNewBeadIds(before, after[1..]);
    if rest != [] {
      var k' := DiffLast(before, after[1..]);
      k := k' + 1;
      assert forall j :: k < j < |after| ==> after[j] == after[1..][j - 1];
    } else {
      k := 0;
      DiffMembers(before, after[1..]);
      assert forall j :: 0 < j < |after| ==> after[j] == after[1..][j - 1];
    }
  }

  /** The number of labelled beads. */
  function Labelled(beads: seq<Bead>): nat {
    if beads == [] then 0 else Labelled(beads[..|beads| - 1]) + (if beads[|beads| - 1].clarify then 1 else 0)
  }

  lemma {:induction false} ClarifyConcat(a: seq<Bead>, b: seq<Bead>)
    ensures ClarifyIds(a + b) == ClarifyIds(a) + ClarifyIds(b)
  {
    if a == [] {
      assert a + b == b;
    } else {
      ClarifyConcat(a[1..], b);
      assert (a + b)[0] == a[0] && (a + b)[1..] == a[1..] + b;
    }
  }

  /** The labelled beads and no others, in order: one before which there are k is the k-th. */
  lemma {:induction false} ClarifyInOrder(beads: seq<Bead>, i: nat)
    requires i <= |beads|
    ensures |ClarifyIds(beads)| == Labelled(beads) && Labelled(beads[..i]) <= Labelled(beads)
    ensures i < |beads| && beads[i].clarify ==>
      Labelled(beads[..i]) < Labelled(beads) && ClarifyIds(beads)[Labelled(beads[..i])] == beads[i].id
    decreases |beads|
  {
    if beads != [] {
      var init, last := beads[..|beads| - 1], beads[|beads| - 1];
      assert beads == init + [last];
      ClarifyConcat(init, [last]);
      assert ClarifyIds([last]) == if last.clarify then [last.id] else [];
      ClarifyInOrder(init, if i < |init| then i else |init|);
      assert init[..|init|] == init && beads[..|beads|] == beads;
      assert i <= |init| ==> beads[..i] == init[..i];
    }
  }

  lemma {:induction false} ClarifyMembers(beads: seq<Bead>)
    ensures ClarifyIds(beads) == [] <==> forall i :: 0 <= i < |beads| ==> !beads[i].clarify
  {
    if beads != [] {
      ClarifyMembers(beads[1..]);
      assert beads == [beads[0]] + beads[1..];
    }
  }

  function CounterAfter(counter: nat, effect: Effect): nat {
    match effect
    case ResetIterationCount => 0
    case SetIterationCount(next) => next
    case _ => counter
  }

  // ------------------------------------------------------------- the controller

  /** What outlives a single check: the persisted counter, and everything checks have done to
      the repository and its beads, in order. */
  class Workspace {
    var counter: nat
    var effects: seq<Effect>

    constructor (counter: nat)
      ensures this.counter == counter && effects == []
    {
      this.counter, effects := counter, [];
    }
  }

  class Controller {
    const workspace: Workspace
    /** The spec's beads before and after the review. */
    const pre: seq<Bead>
    const post: seq<Bead>
    const review: ReviewOutcome
    /** Which calls fail, by their position among all calls. */
    const faults: nat -> bool
    var calls: nat

    constructor (workspace: Workspace, pre: seq<Bead>, post: seq<Bead>, review: ReviewOutcome, faults: nat -> bool)
      ensures this.workspace == workspace && this.pre == pre && this.post == post && this.review == review
      ensures this.faults == faults && calls == 0
    {
      this.workspace, this.pre, this.post, this.review, this.faults := workspace, pre, post, review, faults;
      calls := 0;
    }

    /** All calls since `from` went through, or the last of them is the one that failed. */
    ghost predicate Went(from: nat, ok: bool)
      reads this`calls
    {
      if ok then forall k :: from <= k < calls ==> !faults(k) else from < calls && faults(calls - 1)
    }

    /** A call that only reads. */
    method Read() returns (ok: bool)
      modifies this`calls
      ensures calls == old(calls) + 1 && ok == !faults(old(calls))
    {
      ok := !faults(calls);
      calls := calls + 1;
    }

    method Perform(effect: Effect) returns (ok: bool)
      modifies this`calls, workspace
      ensures calls == old(calls) + 1 && ok == !faults(old(calls))
      ensures workspace.effects == old(workspace.effects) + (if ok then [effect] else [])
      ensures workspace.counter == if ok then CounterAfter(old(workspace.counter), effect) else old(workspace.counter)
    {
      ok := !faults(calls);
      calls := calls + 1;
      if ok {
        workspace.counter := CounterAfter(workspace.counter, effect);
        workspace.effects := workspace.effects + [effect];
      }
    }
  }

  predicate IsExhausted(cap: nat, current: nat) {
    current >= cap
  }

  /** A clarify label beats everything; without new beads the gate is clean; otherwise the
      counter decides between one more iteration and the escalation of the last new bead. */
  predicate Decided(verdict: CheckVerdict, newIds: seq<string>, clarifyIds: seq<string>, counter: nat, cap: nat) {
    match verdict
    case Clarify(ids) => ids == clarifyIds != []
    case Clean => clarifyIds == [] && newIds == []
    case AutoIterate(ids, next) => clarifyIds == [] && ids == newIds != [] && next == counter + 1 <= cap
    case IterationCap(ids, escalate, cap') =>
      clarifyIds == [] && ids == newIds != [] && escalate == newIds[|newIds| - 1] && cap' == cap <= counter
  }

  /** The effects a verdict calls for, in order. */
  function EffectsOf(verdict: CheckVerdict): seq<Effect> {
    match verdict
    case Clean => [ResetIterationCount, GitPush, BeadsPush]
    case Clarify(_) => []
    case AutoIterate(_, next) => [SetIterationCount(next), ExecRun]
    case IterationCap(_, id, _) => [ApplyClarify(id)]
  }

  function ResultOf(verdict: CheckVerdict): CheckResult {
    match verdict
    case Clean => Pushed
    case Clarify(ids) => CheckResult.Clarified(ids)
    case AutoIterate(_, next) => AutoIterated(next)
    case IterationCap(_, id, cap) => Escalated(id, cap)
  }

  /** The persisted counter after some effects. */
  function CounterThrough(counter: nat, effects: seq<Effect>): nat {
    if effects == [] then counter
    else CounterAfter(CounterThrough(counter, effects[..|effects| - 1]), effects[|effects| - 1])
  }

  lemma CounterSnoc(counter: nat, effects: seq<Effect>, effect: Effect)
    ensures CounterThrough(counter, effects + [effect]) == CounterAfter(CounterThrough(counter, effects), effect)
  {
    assert (effects + [effect])[..|effects|] == effects;
  }

  /** Where a check found the workspace and its own calls. */
  datatype CheckStart = CheckStart(counter: nat, effects: seq<Effect>, calls: nat)

  function StartOf(c: Controller): CheckStart
    reads c, c.workspace
  {
    CheckStart(c.workspace.counter, c.workspace.effects, c.calls)
  }

  /** How far a check has come since `o`: the effects in `done` and no others, the counter
      they leave, and no failed call unless `ok` is false. */
  ghost predicate Applied(c: Controller, o: CheckStart, done: seq<Effect>, ok: bool)
    reads c, c.workspace
  {
    && c.workspace.effects == o.effects + done && c.workspace.counter == CounterThrough(o.counter, done)
    && c.calls >= o.calls && c.Went(o.calls, ok)
  }

  /** Perform the k-th of the effects `all`. */
  method Take(c: Controller, effect: Effect, ghost o: CheckStart, ghost all: seq<Effect>, ghost k: nat)
    returns (ok: bool)
    requires k < |all| && effect == all[k] && Applied(c, o, all[..k], true)
    modifies c, c.workspace
    ensures Applied(c, o, all[..if ok then k + 1 else k], ok)
  {
    hide CounterThrough;
    assert all[..k] + [effect] == all[..k + 1];
    CounterSnoc(o.counter, all[..k], effect);
    ok := c.Perform(effect);
  }

  /** A call of the check that only reads. */
  method Look(c: Controller, ghost o: CheckStart) returns (ok: bool)
    requires Applied(c, o, [], true)
    modifies c`calls
    ensures Applied(c, o, [], ok)
  {
    hide CounterThrough;
    ok := c.Read();
  }

  method DecideVerdict(c: Controller, newIds: seq<string>, clarifyIds: seq<string>, cap: nat, ghost o: CheckStart)
    returns (r: Result<CheckVerdict, CheckError>)
    requires Applied(c, o, [], true)
    modifies c`calls
    ensures Applied(c, o, [], r.Ok?) && (r.Err? ==> r.error == CallFailed)
    ensures r.Ok? ==> Decided(r.value, newIds, clarifyIds, c.workspace.counter, cap)
  {
    hide Applied;
    if clarifyIds != [] { return Ok(Clarify(clarifyIds)); }
    if newIds == [] { return Ok(Clean); }
    var newest := newIds[|newIds| - 1];
    var ok := Look(c, o);
    if !ok { return Err(CallFailed); }
    var current := c.workspace.counter;
    if IsExhausted(cap, current) { return Ok(IterationCap(newIds, newest, cap)); }
    r := Ok(AutoIterate(newIds, current + 1));
  }

  /** The effects of the verdict or, when a call fails, a proper prefix of them: the
      counter is already reset when a push fails. */
  method ApplyVerdict(c: Controller, verdict: CheckVerdict, ghost o: CheckStart)
    returns (r: Result<CheckResult, CheckError>, ghost k: nat)
    requires Applied(c, o, [], true)
    modifies c, c.workspace
    ensures k <= |EffectsOf(verdict)| && Applied(c, o, EffectsOf(verdict)[..k], r.Ok?)
    ensures r == if k == |EffectsOf(verdict)| then Ok(ResultOf(verdict)) else Err(CallFailed)
  {
    ghost var all := EffectsOf(verdict);
    assert all[..0] == [];
    hide Applied;
    match verdict
    case Clean =>
      var ok := Take(c, ResetIterationCount, o, all, 0);
      if !ok { return Err(CallFailed), 0; }
      ok := Take(c, GitPush, o, all, 1);
      if !ok { return Err(CallFailed), 1; }
      ok := Take(c, BeadsPush, o, all, 2);
      if !ok { return Err(CallFailed), 2; }
      return Ok(Pushed), 3;
    case Clarify(ids) =>
      return Ok(CheckResult.Clarified(ids)), 0;
    case AutoIterate(_, next) =>
      var ok := Take(c, SetIterationCount(next), o, all, 0);
      if !ok { return Err(CallFailed), 0; }
      ok := Take(c, ExecRun, o, all, 1);
      if !ok { return Err(CallFailed), 1; }
      return Ok(AutoIterated(next)), 2;
    case IterationCap(_, id, cap) =>
      var ok := Take(c, ApplyClarify(id), o, all, 0);
      if !ok { return Err(CallFailed), 0; }
      return Ok(Escalated(id, cap)), 1;
  }

  /** Nothing needs fixing: no clarify label in the post-snapshot and no id outside the
      pre-snapshot. */
  predicate NothingToDo(pre: seq<Bead>, post: seq<Bead>) {
    forall i :: 0 <= i < |post| ==> !post[i].clarify && post[i].id in Ids(pre)
  }

  predicate AnyClarify(post: seq<Bead>) {
    exists i :: 0 <= i < |post| && post[i].clarify
  }

  /** `id` is the last bead of `post` that the pre-snapshot does not know. */
  predicate NewestBead(id: string, pre: seq<Bead>, post: seq<Bead>) {
    exists k :: 0 <= k < |post| && post[k].id == id && id !in Ids(pre)
      && forall j :: k < j < |post| ==> post[j].id in Ids(pre)
  }

  /** A push effect in the log is preceded by the git push; the git push only happens
      when there is nothing to do. */
  predicate SafePushes(effects: seq<Effect>, pre: seq<Bead>, post: seq<Bead>) {
    && (GitPush in effects ==> NothingToDo(pre, post))
    && (forall k :: 0 <= k < |effects| && effects[k].BeadsPush? ==> k > 0 && effects[k - 1].GitPush?)
  }

  /** What each result says about the snapshots, the counter and the effects. */
  ghost predicate GateResult(result: CheckResult, pre: seq<Bead>, post: seq<Bead>, before: nat, counter: nat,
                             effects: seq<Effect>, cap: nat)
  {
    match result
    case Pushed =>
      && NothingToDo(pre, post)
      && effects == [ResetIterationCount, GitPush, BeadsPush] && counter == 0
    case Clarified(ids) =>
      && AnyClarify(post) && ids == ClarifyIds(post)
      && effects == [] && counter == before
    case AutoIterated(next) =>
      && !AnyClarify(post) && !NothingToDo(pre, post)
      && next == counter == before + 1 <= cap
      && effects == [SetIterationCount(next), ExecRun]
    case Escalated(id, cap') =>
      && !AnyClarify(post) && NewestBead(id, pre, post)
      && cap' == cap <= counter == before
      && effects == [ApplyClarify(id)]
  }

  /** What the gate did after `k` of its verdict's effects. */
  lemma GateAfter(verdict: CheckVerdict, pre: seq<Bead>, post: seq<Bead>, before: nat, cap: nat, k: nat)
    requires Decided(verdict, DiffNewBeadIds(Ids(pre), Ids(post)), ClarifyIds(post), before, cap)
    requires k <= |EffectsOf(verdict)|
    ensures var effects := EffectsOf(verdict)[..k];
            var counter := CounterThrough(before, effects);
            && SafePushes(effects, pre, post)
            && (counter == 0 || counter == before || counter == before + 1 <= cap)
            && (k == |EffectsOf(verdict)| ==> GateResult(ResultOf(verdict), pre, post, before, counter, effects, cap))
  {
    hide CounterThrough, NewestBead, DiffNewBeadIds, ClarifyIds, Ids, NothingToDo, AnyClarify;
    SnapshotsCompared(pre, post);
    CounterOfPrefix(before, verdict, k);
    assert EffectsOf(verdict)[..|EffectsOf(verdict)|] == EffectsOf(verdict);
    if verdict.Clean? {
      assert !AnyClarify(post);
    }
  }

  /** The effects are those of the one verdict the snapshots and the counter call for, or
      the first of them. */
  ghost predicate Justified(effects: seq<Effect>, pre: seq<Bead>, post: seq<Bead>, before: nat, cap: nat) {
    effects == [] || exists verdict ::
      && Decided(verdict, DiffNewBeadIds(Ids(pre), Ids(post)), ClarifyIds(post), before, cap)
      && effects <= EffectsOf(verdict)
  }

  /** One `loom check`: the gate.  `done` are its effects. */
  method CheckLoop(c: Controller, cap: nat) returns (r: Result<CheckResult, CheckError>, ghost done: seq<Effect>)
    modifies c, c.workspace
    ensures Applied(c, old(StartOf(c)), done, r != Err(CallFailed))
    ensures r != Err(CallFailed) ==>
      (c.review.Incomplete? <==> r.Err?) && (r.Err? ==> r.error == ReviewIncomplete(c.review.detail))
    ensures Justified(done, c.pre, c.post, old(c.workspace.counter), cap) && SafePushes(done, c.pre, c.post)
    ensures var before, counter := old(c.workspace.counter), c.workspace.counter;
            counter == 0 || counter == before || counter == before + 1 <= cap
    ensures c.review.Incomplete? ==> r.Err? && done == []
    ensures r.Ok? ==> GateResult(r.value, c.pre, c.post, old(c.workspace.counter), c.workspace.counter, done, cap)
  {
    ghost var o := StartOf(c);
    done := [];
    NothingDone(c, cap);
    hide *;
    var ok := Look(c, o);
    if !ok { return Err(CallFailed), []; }
    var preIds := Ids(c.pre);
    ok := Look(c, o);
    if !ok { return Err(CallFailed), []; }
    if c.review.Incomplete? { return Err(ReviewIncomplete(c.review.detail)), []; }
    ok := Look(c, o);
    if !ok { return Err(CallFailed), []; }
    var postIds := Ids(c.post);
    var newIds := DiffNewBeadIds(preIds, postIds);
    var clarifyIds := ClarifyIds(c.post);
    var verdict := DecideVerdict(c, newIds, clarifyIds, cap, o);
    if verdict.Err? { return Err(verdict.error), []; }
    ghost var k;
    r, k := ApplyVerdict(c, verdict.value, o);
    GateAfter(verdict.value, c.pre, c.post, o.counter, cap, k);
    PrefixJustified(verdict.value, c.pre, c.post, o.counter, cap, k);
    done := EffectsOf(verdict.value)[..k];
    CounterAt(c, o, done, r.Ok?);
  }

  lemma CounterAt(c: Controller, o: CheckStart, done: seq<Effect>, ok: bool)
    requires Applied(c, o, done, ok)
    ensures c.workspace.counter == CounterThrough(o.counter, done)
  {
  }

  lemma NothingDone(c: Controller, cap: nat)
    ensures Applied(c, StartOf(c), [], true)
    ensures StartOf(c).counter == c.workspace.counter
    ensures Justified([], c.pre, c.post, c.workspace.counter, cap) && SafePushes([], c.pre, c.post)
  {
    assert c.workspace.effects + [] == c.workspace.effects;
  }

  lemma PrefixJustified(verdict: CheckVerdict, pre: seq<Bead>, post: seq<Bead>, before: nat, cap: nat, k: nat)
    requires Decided(verdict, DiffNewBeadIds(Ids(pre), Ids(post)), ClarifyIds(post), before, cap)
    requires k <= |EffectsOf(verdict)|
    ensures Justified(EffectsOf(verdict)[..k], pre, post, before, cap)
  {
    hide Decided, EffectsOf, DiffNewBeadIds, ClarifyIds, Ids;
  }

  lemma CounterOfPrefix(counter: nat, verdict: CheckVerdict, k: nat)
    requires k <= |EffectsOf(verdict)|
    ensures CounterThrough(counter, EffectsOf(verdict)[..k]) ==
            if k == 0 then counter
            else if verdict.Clean? then 0
            else if verdict.AutoIterate? then verdict.nextIteration
            else counter
  {
    var all := EffectsOf(verdict);
    if k > 0 {
      assert all[..k][..k - 1] == all[..k - 1];
      CounterOfPrefix(counter, verdict, k - 1);
    }
  }

  lemma SnapshotsCompared(pre: seq<Bead>, post: seq<Bead>)
    ensures ClarifyIds(post) == [] <==> !AnyClarify(post)
    ensures !AnyClarify(post) ==> (DiffNewBeadIds(Ids(pre), Ids(post)) == [] <==> NothingToDo(pre, post))
    ensures var d := DiffNewBeadIds(Ids(pre), Ids(post)); d != [] ==> NewestBead(d[|d| - 1], pre, post)
  {
    var before, after := Ids(pre), Ids(post);
    ClarifyMembers(post);
    DiffMembers(before, after);
    var d := DiffNewBeadIds(before, after);
    assert forall i :: 0 <= i < |post| ==> after[i] == post[i].id;
    if d == [] {
      forall i | 0 <= i < |post| ensures post[i].id in before { assert after[i] in after; }
    } else {
      assert d[0] in d;
      var k := DiffLast(before, after);
      assert post[k].id == d[|d| - 1];
    }
  }

  // ---------------------------------------------------------- the run/check chain

  /** What the world offers in round `i`: beads to run, agent and call behaviour, and
      what the review finds. */
  datatype Round = Round(ready: seq<string>, agent: nat -> Result<AgentOutcome, RunError>,
                         runFaults: nat -> bool, pre: seq<Bead>, post: seq<Bead>,
                         review: ReviewOutcome, checkFaults: nat -> bool)

  datatype ChainEnd =
    | RunFailed
    | CheckFailed(error: CheckError)
    | Finished(result: CheckResult)

  /** The review left fix-up beads and no clarify label: the reason to iterate. */
  predicate WantsMore(round: Round) {
    !AnyClarify(round.post) && !NothingToDo(round.pre, round.post)
  }

  /** The `loom run` of a round: all its beads and the hand-off, or a call that failed. */
  ghost predicate RanRound(run: RunLoop.Controller, round: Round, maxRetries: nat, failed: bool)
    reads run
  {
    && run.agent == round.agent && run.faults == round.runFaults
    && var start := RunLoop.Origin([], round.ready, 0, 0);
       if failed then exists runs, aborted :: Aborted(run, start, runs, aborted, maxRetries)
       else exists runs :: Reached(run, start, runs, [], maxRetries, true)
  }

  /** The `loom check` of a round: a failed call if and only if `failed`. */
  ghost predicate CheckedRound(check: Controller, workspace: Workspace, round: Round, failed: bool)
    reads check
  {
    && check.workspace == workspace && check.pre == round.pre && check.post == round.post
    && check.review == round.review && check.faults == round.checkFaults && check.Went(0, !failed)
  }

  /** Every round in the log iterated: its check counted up and handed over, and did nothing
      else. */
  ghost predicate Iterated(world: nat -> Round, log: seq<seq<Effect>>, persisted: nat) {
    forall i :: 0 <= i < |log| ==>
      WantsMore(world(i)) && log[i] == [SetIterationCount(persisted + i + 1), ExecRun]
  }

  lemma OneMoreIteration(world: nat -> Round, log: seq<seq<Effect>>, persisted: nat, effects: seq<Effect>)
    requires Iterated(world, log, persisted) && WantsMore(world(|log|))
    requires effects == [SetIterationCount(persisted + |log| + 1), ExecRun]
    ensures Iterated(world, log + [effects], persisted)
  {
    hide WantsMore;
  }

  /** All rounds before the last ran and were checked without a failed call. */
  ghost predicate AllWent(world: nat -> Round, runs: seq<RunLoop.Controller>, checks: seq<Controller>,
                          workspace: Workspace, maxRetries: nat)
    requires |runs| == |checks|
    reads runs, checks
  {
    forall i :: 0 <= i < |runs| ==>
      RanRound(runs[i], world(i), maxRetries, false) && CheckedRound(checks[i], workspace, world(i), false)
  }

  lemma OneMoreWent(world: nat -> Round, runs: seq<RunLoop.Controller>, checks: seq<Controller>,
                    workspace: Workspace, maxRetries: nat, run: RunLoop.Controller, check: Controller)
    requires |runs| == |checks| && AllWent(world, runs, checks, workspace, maxRetries)
    requires RanRound(run, world(|runs|), maxRetries, false)
    requires CheckedRound(check, workspace, world(|runs|), false)
    ensures AllWent(world, runs + [run], checks + [check], workspace, maxRetries)
  {
    hide RanRound, CheckedRound;
  }

  /** The effects of all rounds in a log. */
  function AllEffects(log: seq<seq<Effect>>): seq<Effect> {
    if log == [] then [] else AllEffects(log[..|log| - 1]) + log[|log| - 1]
  }

  /** `now` is `before` with the effects of the log and of one more round appended. */
  predicate Grown(now: seq<Effect>, before: seq<Effect>, log: seq<seq<Effect>>, last: seq<Effect>) {
    now == before + (AllEffects(log) + last)
  }

  lemma GrownBy(now: seq<Effect>, before: seq<Effect>, log: seq<seq<Effect>>, last: seq<Effect>)
    requires Grown(now, before, log, [])
    ensures Grown(now + last, before, log, last)
    ensures Grown(now + last, before, log + [last], [])
  {
    assert (log + [last])[..|log|] == log;
    assert AllEffects(log) + [] == AllEffects(log);
    assert AllEffects(log + [last]) + [] == AllEffects(log) + last;
  }

  lemma NothingGrown(before: seq<Effect>)
    ensures Grown(before, before, [], [])
  {
  }

  /** What the end of a chain says about the round it came in. */
  ghost predicate EndsRightly(end: ChainEnd, round: Round, counter: nat, cap: nat, effects: seq<Effect>) {
    match end
    case RunFailed => effects == []
    case CheckFailed(CallFailed) => true
    case CheckFailed(ReviewIncomplete(detail)) => effects == [] && round.review == Incomplete(detail)
    case Finished(Pushed) =>
      counter == 0 && NothingToDo(round.pre, round.post) && effects == [ResetIterationCount, GitPush, BeadsPush]
    case Finished(Clarified(ids)) => effects == [] && AnyClarify(round.post) && ids == ClarifyIds(round.post)
    case Finished(Escalated(id, _)) =>
      && WantsMore(round) && NewestBead(id, round.pre, round.post)
      && counter >= cap && effects == [ApplyClarify(id)]
    case Finished(AutoIterated(_)) => false
  }

  /** `loom run` hands off to `loom check`, which hands back to `loom run` as long as it
      auto-iterates; the counter persists in between.  Whatever the rounds offer, the
      chain stops after at most one round more than the cap leaves room for.  `log` holds
      the effects of each check that iterated and `last` those of the last one: together
      they are all that happened to the workspace.  `runs` and `checks` belong to the
      rounds that iterated, `run` and `check` to the last one. */
  method RunCheckChain(workspace: Workspace, world: nat -> Round, policy: RetryPolicy, cap: nat)
    returns (end: ChainEnd, iterations: nat, ghost log: seq<seq<Effect>>, ghost last: seq<Effect>,
             ghost runs: seq<RunLoop.Controller>, ghost checks: seq<Controller>,
             ghost run: RunLoop.Controller, ghost check: Controller?)
    modifies workspace
    ensures var persisted, round := old(workspace.counter), world(iterations);
      && iterations <= (if persisted <= cap then cap - persisted else 0)
      && |log| == iterations && Iterated(world, log, persisted)
      && workspace.counter == CounterThrough(persisted + iterations, last)
      && (persisted <= cap ==> workspace.counter <= cap)
      && Justified(last, round.pre, round.post, persisted + iterations, cap)
      && SafePushes(last, round.pre, round.post)
      && EndsRightly(end, round, workspace.counter, cap, last)
    ensures Grown(workspace.effects, old(workspace.effects), log, last)
    ensures |runs| == |checks| == iterations && AllWent(world, runs, checks, workspace, policy.maxRetries)
    ensures RanRound(run, world(iterations), policy.maxRetries, end.RunFailed?)
    ensures !end.RunFailed? ==>
      check != null && CheckedRound(check, workspace, world(iterations), end == CheckFailed(CallFailed))
  {
    hide *;
    iterations, log, runs, checks := 0, [], [], [];
    ghost var persisted := workspace.counter;
    NothingIterated(world, workspace, policy.maxRetries);
    while true
      invariant workspace.counter == persisted + iterations && |log| == |runs| == |checks| == iterations
      invariant iterations > 0 ==> workspace.counter <= cap
      invariant Iterated(world, log, persisted)
      invariant AllWent(world, runs, checks, workspace, policy.maxRetries)
      invariant Grown(workspace.effects, old(workspace.effects), log, [])
      decreases if workspace.counter <= cap then cap - workspace.counter else 0
    {
      var round := world(iterations);
      var failed;
      failed, run := RunRound(round, policy);
      if failed {
        NoEffects(round, workspace.counter, cap);
        return RunFailed, iterations, log, [], runs, checks, run, null;
      }
      ghost var counter := workspace.counter;
      GrownBy(workspace.effects, old(workspace.effects), log, []);
      ghost var effects := workspace.effects;
      var result;
      result, last, check := CheckRound(workspace, round, cap);
      GrownBy(effects, old(workspace.effects), log, last);
      if result.Err? {
        RoundFails(round, result.error, workspace.counter, last, cap);
        return CheckFailed(result.error), iterations, log, last, runs, checks, run, check;
      }
      RoundEnds(round, result.value, counter, workspace.counter, last, cap);
      if !result.value.AutoIterated? {
        return Finished(result.value), iterations, log, last, runs, checks, run, check;
      }
      OneMoreIteration(world, log, persisted, last);
      OneMoreWent(world, runs, checks, workspace, policy.maxRetries, run, check);
      iterations, log, runs, checks := iterations + 1, log + [last], runs + [run], checks + [check];
    }
  }

  lemma NothingIterated(world: nat -> Round, workspace: Workspace, maxRetries: nat)
    ensures Iterated(world, [], workspace.counter) && AllWent(world, [], [], workspace, maxRetries)
    ensures Grown(workspace.effects, workspace.effects, [], [])
  {
    NothingGrown(workspace.effects);
  }

  method RunRound(round: Round, policy: RetryPolicy) returns (failed: bool, ghost run: RunLoop.Controller)
    ensures RanRound(run, round, policy.maxRetries, failed)
  {
    hide Reached, Aborted;
    var c := new RunLoop.Controller(round.ready, round.agent, round.runFaults);
    var summary;
    ghost var runs, aborted;
    assert RunLoop.Here(c) == RunLoop.Origin([], round.ready, 0, 0);
    summary, runs, aborted := RunBeads(c, Continuous, policy);
    return summary.Err?, c;
  }

  method CheckRound(workspace: Workspace, round: Round, cap: nat)
    returns (r: Result<CheckResult, CheckError>, ghost done: seq<Effect>, ghost check: Controller)
    modifies workspace
    ensures fresh(check) && CheckedRound(check, workspace, round, r == Err(CallFailed))
    ensures workspace.effects == old(workspace.effects) + done
    ensures var before, counter := old(workspace.counter), workspace.counter;
      && Justified(done, round.pre, round.post, before, cap) && SafePushes(done, round.pre, round.post)
      && counter == CounterThrough(before, done)
      && (counter == 0 || counter == before || counter == before + 1 <= cap)
      && (r.Ok? ==> GateResult(r.value, round.pre, round.post, before, counter, done, cap))
    ensures r.Err? && r.error.ReviewIncomplete? ==> done == [] && round.review == Incomplete(r.error.detail)
  {
    hide Justified, SafePushes, GateResult, CounterThrough;
    var c := new Controller(workspace, round.pre, round.post, round.review, round.checkFaults);
    r, done := CheckLoop(c, cap);
    return r, done, c;
  }

  lemma NoEffects(round: Round, counter: nat, cap: nat)
    ensures CounterThrough(counter, []) == counter
    ensures SafePushes([], round.pre, round.post) && Justified([], round.pre, round.post, counter, cap)
    ensures EndsRightly(RunFailed, round, counter, cap, [])
  {
  }

  /** A finished check ends the chain unless it auto-iterates. */
  lemma RoundEnds(round: Round, result: CheckResult, before: nat, counter: nat, effects: seq<Effect>, cap: nat)
    requires GateResult(result, round.pre, round.post, before, counter, effects, cap)
    ensures !result.AutoIterated? ==> EndsRightly(Finished(result), round, counter, cap, effects)
    ensures result.AutoIterated? ==>
      WantsMore(round) && counter == before + 1 <= cap && effects == [SetIterationCount(counter), ExecRun]
  {
    hide NothingToDo, AnyClarify, ClarifyIds, Ids;
    if result.Escalated? { NewestIsUndone(result.escalateId, round.pre, round.post); }
  }

  lemma NewestIsUndone(id: string, pre: seq<Bead>, post: seq<Bead>)
    requires NewestBead(id, pre, post)
    ensures !NothingToDo(pre, post)
  {
  }

  lemma RoundFails(round: Round, error: CheckError, counter: nat, effects: seq<Effect>, cap: nat)
    requires error.ReviewIncomplete? ==> effects == [] && round.review == Incomplete(error.detail)
    ensures EndsRightly(CheckFailed(error), round, counter, cap, effects)
  {
  }

  /** A chain does at most one push, in its last round, and only if that round left nothing
      to do. */
  lemma ChainPushesOnce(world: nat -> Round, log: seq<seq<Effect>>, last: seq<Effect>, persisted: nat, cap: nat)
    requires Iterated(world, log, persisted)
    requires Justified(last, world(|log|).pre, world(|log|).post, persisted + |log|, cap)
    requires SafePushes(last, world(|log|).pre, world(|log|).post)
    ensures multiset(AllEffects(log) + last)[GitPush] <= 1
    ensures GitPush in AllEffects(log) + last ==> NothingToDo(world(|log|).pre, world(|log|).post)
  {
    hide *;
    var round := world(|log|);
    NoPushes(world, log, persisted);
    AtMostOnePush(last, round.pre, round.post, persisted + |log|, cap);
    PushIsSafe(last, round.pre, round.post);
  }

  lemma {:induction false} NoPushes(world: nat -> Round, log: seq<seq<Effect>>, persisted: nat)
    requires Iterated(world, log, persisted)
    ensures GitPush !in AllEffects(log) && multiset(AllEffects(log))[GitPush] == 0
  {
    hide WantsMore;
    if log != [] { NoPushes(world, log[..|log| - 1], persisted); }
  }

  lemma AtMostOnePush(effects: seq<Effect>, pre: seq<Bead>, post: seq<Bead>, before: nat, cap: nat)
    requires Justified(effects, pre, post, before, cap)
    ensures multiset(effects)[GitPush] <= 1
  {
    hide Decided, DiffNewBeadIds, ClarifyIds, Ids, EffectsOf;
    if effects != [] {
      var verdict: CheckVerdict :| effects <= EffectsOf(verdict);
      PushesOf(verdict);
      assert EffectsOf(verdict) == effects + EffectsOf(verdict)[|effects|..];
    }
  }

  lemma PushIsSafe(effects: seq<Effect>, pre: seq<Bead>, post: seq<Bead>)
    requires SafePushes(effects, pre, post)
    ensures GitPush in effects ==> NothingToDo(pre, post)
  {
  }

  lemma PushesOf(verdict: CheckVerdict)
    ensures multiset(EffectsOf(verdict))[GitPush] <= 1
  {
  }
}
