/** One parallel batch: a worktree per bead, agents finishing in any order, and a
    sequential merge back into the driver branch. */
module Batch {
  import opened Prelude
  import opened RunLoop
  import opened GitRepo
  import BeadLog

  datatype BatchSlot = BatchSlot(slot: Slot, outcome: AgentOutcome)

  datatype BatchResult =
    | Merged(bead: string)
    | Conflict(bead: string, worktreePath: string, branch: string)
    | AgentFailed(bead: string, error: string)

  // ------------------------------------------------------------------ step 1

  /** The slot's worktree and branch are in place, and the branch is checked out only
      there. */
  predicate Linked(worktrees: map<string, string>, branches: set<string>, s: Slot) {
    && s.path in worktrees && s.branch in branches
    && forall p :: p in worktrees ==> (worktrees[p] == s.branch <==> p == s.path)
  }

  /** Every worktree is on a branch that exists, and all of these slots are in place. */
  predicate AllLinked(worktrees: map<string, string>, branches: set<string>, slots: seq<Slot>) {
    worktrees.Values <= branches && forall i :: 0 <= i < |slots| ==> Linked(worktrees, branches, slots[i])
  }

  function PathsOf(slots: seq<Slot>): set<string> { set s | s in slots :: s.path }
  function BranchesOf(slots: seq<Slot>): set<string> { set s | s in slots :: s.branch }

  predicate DistinctSlots(slots: seq<Slot>) {
    forall i, j :: 0 <= i < j < |slots| ==>
      slots[i].bead != slots[j].bead && slots[i].path != slots[j].path && slots[i].branch != slots[j].branch
  }

  /** No branch and no worktree stands in the way of this bead's. */
  predicate Fresh(spec: string, bead: string, paths: set<string>, branches: set<string>) {
    WorktreePath(spec, bead) !in paths && !RefClash(branches, BranchName(spec, bead))
  }

  /** No bead occurs twice, and no two of them clash as branch names. */
  predicate Compatible(beads: seq<string>) {
    forall i, j :: 0 <= i < j < |beads| ==>
      beads[i] != beads[j] && !Below(beads[i], beads[j]) && !Below(beads[j], beads[i])
  }

  /** When git can create the worktrees of a batch. */
  predicate Startable(spec: string, beads: seq<string>, paths: set<string>, branches: set<string>) {
    Compatible(beads) && forall i :: 0 <= i < |beads| ==> Fresh(spec, beads[i], paths, branches)
  }

  /** Valid bead ids never clash: they only have to be distinct. */
  lemma ValidBeadsCompatible(beads: seq<string>)
    requires forall i :: 0 <= i < |beads| ==> BeadLog.ValidBeadId(beads[i])
    ensures Compatible(beads) <==> forall i, j :: 0 <= i < j < |beads| ==> beads[i] != beads[j]
  {
    forall i, j | 0 <= i < |beads| && 0 <= j < |beads| ensures !Below(beads[i], beads[j]) {
      BeadLog.NoSlash(beads[i]);
      BelowHasSlash(beads[i], beads[j]);
    }
  }

  /** The repository after the worktrees of the first beads were created. */
  ghost predicate Created(spec: string, beads: seq<string>, made: seq<Slot>, o: Repo, n: Repo) {
    && |made| <= |beads| && (forall k :: 0 <= k < |made| ==> made[k] == SlotFor(spec, beads[k]))
    && DistinctSlots(made) && Startable(spec, beads[..|made|], o.worktrees.Keys, o.branches)
    && PathsOf(made) !! o.worktrees.Keys && BranchesOf(made) !! o.branches
    && n.driver == o.driver && n.unmerged == o.unmerged
    && n.branches == o.branches + BranchesOf(made)
    && n.worktrees.Keys == o.worktrees.Keys + PathsOf(made)
    && (AllLinked(o.worktrees, o.branches, []) ==> AllLinked(n.worktrees, n.branches, made))
  }

  /** `made` are the slots whose worktrees were created, all of them or the first ones. */
  method CreateWorktrees(git: Git, spec: string, beads: seq<string>)
    returns (r: Result<seq<Slot>, GitError>, ghost made: seq<Slot>)
    modifies git
    ensures Created(spec, beads, made, old(git.Here()), git.Here())
    ensures if r.Ok? then r.value == made && |made| == |beads| else |made| < |beads|
    ensures r.Ok? ==> git.Went(old(git.calls), true)
    ensures Startable(spec, beads, old(git.worktrees.Keys), old(git.branches)) ==> git.Went(old(git.calls), r.Ok?)
    ensures git.Reliable() ==>
      (r.Ok? <==> Startable(spec, beads, old(git.worktrees.Keys), old(git.branches)))
  {
    var out: seq<Slot> := [];
    ghost var o := git.Here();
    NothingCreated(spec, beads, o);
    hide Created, Startable, RefClash, WorktreePath, BranchName;
    for i := 0 to |beads|
      invariant |out| == i && Created(spec, beads, out, o, git.Here()) && git.Went(old(git.calls), true)
    {
      ghost var n := git.Here();
      StillFresh(spec, beads, out, o, n);
      var slot := git.CreateWorktree(spec, beads[i]);
      if slot.Err? { return Err(slot.error), out; }
      OneMoreCreated(spec, beads, out, o, n, git.Here());
      out := out + [slot.value];
    }
    AllCreated(spec, beads, out, o, git.Here());
    return Ok(out), out;
  }

  lemma NothingCreated(spec: string, beads: seq<string>, o: Repo)
    ensures Created(spec, beads, [], o, o)
  {
  }

  lemma AllCreated(spec: string, beads: seq<string>, made: seq<Slot>, o: Repo, n: Repo)
    requires Created(spec, beads, made, o, n) && |made| == |beads|
    ensures Startable(spec, beads, o.worktrees.Keys, o.branches)
  {
    assert beads[..|made|] == beads;
  }

  /** Creating the first worktrees of a startable batch leaves the way clear for the next. */
  lemma StillFresh(spec: string, beads: seq<string>, made: seq<Slot>, o: Repo, n: Repo)
    requires Created(spec, beads, made, o, n) && |made| < |beads|
    ensures Startable(spec, beads, o.worktrees.Keys, o.branches) ==>
      Fresh(spec, beads[|made|], n.worktrees.Keys, n.branches)
  {
    hide WorktreePath, BranchName, Below, AllLinked;
    var i := |made|;
    var path, name := WorktreePath(spec, beads[i]), BranchName(spec, beads[i]);
    if Startable(spec, beads, o.worktrees.Keys, o.branches) {
      forall k | 0 <= k < i
        ensures made[k].path != path && made[k].branch != name
        ensures !Below(made[k].branch, name) && !Below(name, made[k].branch)
      {
        if made[k].path == path || made[k].branch == name { SlotsDistinct(spec, beads[k], beads[i]); }
        BranchesBelow(spec, beads[k], beads[i]);
        BranchesBelow(spec, beads[i], beads[k]);
      }
    }
  }

  lemma OneMoreCreated(spec: string, beads: seq<string>, made: seq<Slot>, o: Repo, n: Repo, n': Repo)
    requires Created(spec, beads, made, o, n) && |made| < |beads|
    requires Fresh(spec, beads[|made|], n.worktrees.Keys, n.branches)
    requires var s := SlotFor(spec, beads[|made|]);
             n' == n.(branches := n.branches + {s.branch}, worktrees := n.worktrees[s.path := s.branch])
    ensures Created(spec, beads, made + [SlotFor(spec, beads[|made|])], o, n')
  {
    hide WorktreePath, BranchName, Below, AllLinked, Startable, DistinctSlots, RefClash, Fresh, PathsOf, BranchesOf;
    var s := SlotFor(spec, beads[|made|]);
    OneMoreSlot(made, s);
    NewSlotIsFresh(spec, beads, made, o, n);
    OneMoreLinked(made, s, n.worktrees, n.branches);
  }

  lemma NewSlotIsFresh(spec: string, beads: seq<string>, made: seq<Slot>, o: Repo, n: Repo)
    requires Created(spec, beads, made, o, n) && |made| < |beads|
    requires Fresh(spec, beads[|made|], n.worktrees.Keys, n.branches)
    ensures var s := SlotFor(spec, beads[|made|]);
            && s.path !in n.worktrees && s.branch !in n.branches
            && DistinctSlots(made + [s])
            && Startable(spec, beads[..|made| + 1], o.worktrees.Keys, o.branches)
  {
    hide WorktreePath, BranchName, Below, AllLinked;
    var i := |made|;
    var s := SlotFor(spec, beads[i]);
    forall k | 0 <= k < i
      ensures made[k].bead != s.bead && made[k].path != s.path && made[k].branch != s.branch
      ensures !Below(beads[k], beads[i]) && !Below(beads[i], beads[k])
    {
      assert made[k].path in PathsOf(made) && made[k].branch in BranchesOf(made);
      BranchesBelow(spec, beads[k], beads[i]);
      BranchesBelow(spec, beads[i], beads[k]);
    }
    assert forall k :: 0 <= k < i ==> beads[..i][k] == beads[k];
  }

  lemma OneMoreLinked(slots: seq<Slot>, s: Slot, worktrees: map<string, string>, branches: set<string>)
    requires s.path !in worktrees && s.branch !in branches
    ensures AllLinked(worktrees, branches, slots) ==>
      AllLinked(worktrees[s.path := s.branch], branches + {s.branch}, slots + [s])
  {
  }

  lemma OneMoreSlot(slots: seq<Slot>, s: Slot)
    ensures PathsOf(slots + [s]) == PathsOf(slots) + {s.path}
    ensures BranchesOf(slots + [s]) == BranchesOf(slots) + {s.branch}
  {
    assert forall t :: t in slots + [s] <==> t in slots || t == s;
  }

  // ------------------------------------------------------------------ step 2

  /** What the agent in a slot does; `None` is a worker that panics. */
  type Agents = Slot -> Option<AgentOutcome>

  function Joined(slots: seq<Slot>, agents: Agents): seq<BatchSlot> {
    if slots == [] then []
    else
      var tail := Joined(slots[1..], agents);
      match agents(slots[0])
      case None => tail
      case Some(outcome) => [BatchSlot(slots[0], outcome)] + tail
  }

  /** Workers are joined in whatever order they finish; one that panicked is dropped. */
  method RunConcurrentSpawns(slots: seq<Slot>, agents: Agents) returns (results: seq<BatchSlot>)
    ensures multiset(results) == multiset(Joined(slots, agents))
  {
    var running := slots;
    results := [];
    while running != []
      invariant multiset(results) + multiset(Joined(running, agents)) == multiset(Joined(slots, agents))
      decreases |running|
    {
      var k :| 0 <= k < |running|;
      JoinOne(running, k, agents);
      var outcome := agents(running[k]);
      if outcome.Some? { results := results + [BatchSlot(running[k], outcome.value)]; }
      running := running[..k] + running[k + 1..];
    }
  }

  lemma {:induction false} JoinedConcat(a: seq<Slot>, b: seq<Slot>, agents: Agents)
    ensures Joined(a + b, agents) == Joined(a, agents) + Joined(b, agents)
  {
    if a == [] {
      assert a + b == b;
    } else {
      JoinedConcat(a[1..], b, agents);
      assert (a + b)[0] == a[0] && (a + b)[1..] == a[1..] + b;
    }
  }

  lemma JoinedCons(first: Slot, rest: seq<Slot>, agents: Agents)
    ensures Joined([first] + rest, agents) ==
            (match agents(first) case None => [] case Some(o) => [BatchSlot(first, o)]) + Joined(rest, agents)
  {
    assert ([first] + rest)[1..] == rest;
  }

  lemma JoinOne(running: seq<Slot>, k: nat, agents: Agents)
    requires k < |running|
    ensures multiset(Joined(running, agents)) ==
            multiset(Joined(running[..k] + running[k + 1..], agents))
            + (match agents(running[k]) case None => multiset{} case Some(o) => multiset{BatchSlot(running[k], o)})
  {
    hide Joined;
    var before, after := running[..k], running[k + 1..];
    assert running == before + ([running[k]] + after);
    JoinedConcat(before, [running[k]] + after, agents);
    JoinedConcat(before, after, agents);
    JoinedCons(running[k], after, agents);
  }

  // ------------------------------------------------------------------ step 3

  /** A result fits its slot: the bead, and for an agent failure the agent's error. */
  predicate Fits(s: BatchSlot, r: BatchResult) {
    match r
    case Merged(bead) => bead == s.slot.bead && s.outcome.Success?
    case Conflict(bead, path, branch) => Slot(bead, path, branch) == s.slot && s.outcome.Success?
    case AgentFailed(bead, error) => bead == s.slot.bead && s.outcome == Failure(error)
  }

  /** The branches of the merged results, in order. */
  function MergedBranches(slots: seq<BatchSlot>, results: seq<BatchResult>): seq<string>
    requires |results| <= |slots|
  {
    if results == [] then []
    else
      var k := |results| - 1;
      MergedBranches(slots, results[..k]) + (if results[k].Merged? then [slots[k].slot.branch] else [])
  }

  /** The slots whose worktree and branch the merge-back has removed. */
  function Cleaned(slots: seq<BatchSlot>, results: seq<BatchResult>): set<Slot>
    requires |results| <= |slots|
  {
    if results == [] then {}
    else
      var k := |results| - 1;
      Cleaned(slots, results[..k]) + (if results[k].Conflict? then {} else {slots[k].slot})
  }

  function CleanedPaths(slots: seq<BatchSlot>, results: seq<BatchResult>): set<string>
    requires |results| <= |slots|
  {
    set s | s in Cleaned(slots, results) :: s.path
  }

  function CleanedBranches(slots: seq<BatchSlot>, results: seq<BatchResult>): set<string>
    requires |results| <= |slots|
  {
    set s | s in Cleaned(slots, results) :: s.branch
  }

  /** Once a merge has conflicted, nothing merges any more. */
  predicate ConflictsStick(results: seq<BatchResult>) {
    forall i, j :: 0 <= i < j < |results| && results[i].Conflict? ==> !results[j].Merged?
  }

  predicate AnyConflict(results: seq<BatchResult>) {
    exists i :: 0 <= i < |results| && results[i].Conflict?
  }

  /** Which results a merge-back gives: a succeeded bead is merged exactly if the index was
      clean from the start, no bead before it conflicted, and its branch does not conflict
      with the driver as the merges before it left it. */
  predicate Decided(conflicts: Conflicts, o: Repo, slots: seq<BatchSlot>, results: seq<BatchResult>)
    requires |results| <= |slots|
  {
    forall i :: 0 <= i < |results| ==>
      && Fits(slots[i], results[i])
      && (results[i].Merged? <==>
          && slots[i].outcome.Success? && !o.unmerged && !AnyConflict(results[..i])
          && !conflicts(o.driver + MergedBranches(slots, results[..i]), slots[i].slot.branch))
  }

  /** The repository after the merge-back of the slots that have a result. */
  predicate MergedBack(conflicts: Conflicts, o: Repo, n: Repo, slots: seq<BatchSlot>, results: seq<BatchResult>)
    requires |results| <= |slots|
  {
    && Decided(conflicts, o, slots, results)
    && n.driver == o.driver + MergedBranches(slots, results)
    && n.worktrees == o.worktrees - CleanedPaths(slots, results)
    && n.branches == o.branches - CleanedBranches(slots, results)
    && (n.unmerged <==> o.unmerged || AnyConflict(results))
  }

  /** One slot merged back. */
  predicate MergedNext(conflicts: Conflicts, n: Repo, n': Repo, s: BatchSlot, r: BatchResult) {
    && Fits(s, r)
    && (r.Merged? <==> s.outcome.Success? && !n.unmerged && !conflicts(n.driver, s.slot.branch))
    && n'.driver == n.driver + (if r.Merged? then [s.slot.branch] else [])
    && n'.worktrees == n.worktrees - (if r.Conflict? then {} else {s.slot.path})
    && n'.branches == n.branches - (if r.Conflict? then {} else {s.slot.branch})
    && (n'.unmerged <==> n.unmerged || r.Conflict?)
  }

  /** One slot at which a git command failed: its branch is still there, perhaps merged. */
  predicate Interrupted(conflicts: Conflicts, n: Repo, n': Repo, s: BatchSlot) {
    && (|| n'.driver == n.driver
        || (&& s.outcome.Success? && !n.unmerged && !conflicts(n.driver, s.slot.branch)
            && n'.driver == n.driver + [s.slot.branch]))
    && (n'.worktrees == n.worktrees || n'.worktrees == n.worktrees - {s.slot.path})
    && n'.branches == n.branches
  }

  method MergeBackOne(git: Git, s: BatchSlot) returns (r: Result<BatchResult, GitError>)
    modifies git
    ensures r.Ok? ==> MergedNext(git.conflicts, old(git.Here()), git.Here(), s, r.value)
    ensures r.Err? ==> Interrupted(git.conflicts, old(git.Here()), git.Here(), s)
    ensures r.Ok? ==> git.Went(old(git.calls), true)
    ensures old(Linked(git.worktrees, git.branches, s.slot)) ==> git.Went(old(git.calls), r.Ok?)
  {
    match s.outcome
    case Success =>
      var merged := git.MergeBranch(s.slot.branch);
      if merged.Err? { return Err(merged.error); }
      match merged.value {
        case Clean =>
          var removed := git.RemoveWorktree(s.slot.path);
          if removed.Err? { return Err(removed.error); }
          var deleted := git.DeleteBranch(s.slot.branch);
          if deleted.Err? { return Err(deleted.error); }
          r := Ok(Merged(s.slot.bead));
        case Conflicted =>
          r := Ok(Conflict(s.slot.bead, s.slot.path, s.slot.branch));
      }
    case Failure(error) =>
      var removed := git.RemoveWorktree(s.slot.path);
      if removed.Err? { return Err(removed.error); }
      var deleted := git.DeleteBranch(s.slot.branch);
      if deleted.Err? { return Err(deleted.error); }
      r := Ok(AgentFailed(s.slot.bead, error));
  }

  lemma OneMoreResult(slots: seq<BatchSlot>, results: seq<BatchResult>, r: BatchResult)
    requires |results| < |slots|
    ensures var s, more := slots[|results|].slot, results + [r];
            && MergedBranches(slots, more) == MergedBranches(slots, results) + (if r.Merged? then [s.branch] else [])
            && CleanedPaths(slots, more) == CleanedPaths(slots, results) + (if r.Conflict? then {} else {s.path})
            && CleanedBranches(slots, more)
               == CleanedBranches(slots, results) + (if r.Conflict? then {} else {s.branch})
  {
    var more, k := results + [r], |results|;
    assert more[..k] == results && more[k] == r;
    assert Cleaned(slots, more) == Cleaned(slots, results) + (if r.Conflict? then {} else {slots[k].slot});
  }

  lemma OneMoreConflict(results: seq<BatchResult>, r: BatchResult)
    ensures AnyConflict(results + [r]) <==> AnyConflict(results) || r.Conflict?
  {
    var more := results + [r];
    assert more[|results|] == r;
    if AnyConflict(results) {
      var i :| 0 <= i < |results| && results[i].Conflict?;
      assert more[i].Conflict?;
    }
  }

  lemma MergedOneMore(conflicts: Conflicts, o: Repo, n: Repo, n': Repo, slots: seq<BatchSlot>,
                      results: seq<BatchResult>, r: BatchResult)
    requires |results| < |slots| && MergedBack(conflicts, o, n, slots, results)
    requires MergedNext(conflicts, n, n', slots[|results|], r)
    ensures MergedBack(conflicts, o, n', slots, results + [r])
  {
    hide Fits, AnyConflict, MergedBranches, CleanedPaths, CleanedBranches, Decided;
    OneMoreResult(slots, results, r);
    OneMoreConflict(results, r);
    OneMoreDecided(conflicts, o, n, slots, results, r);
  }

  lemma OneMoreDecided(conflicts: Conflicts, o: Repo, n: Repo, slots: seq<BatchSlot>, results: seq<BatchResult>,
                       r: BatchResult)
    requires |results| < |slots| && MergedBack(conflicts, o, n, slots, results)
    requires Fits(slots[|results|], r)
    requires var s := slots[|results|];
             r.Merged? <==> s.outcome.Success? && !n.unmerged && !conflicts(n.driver, s.slot.branch)
    ensures Decided(conflicts, o, slots, results + [r])
  {
    hide Fits, AnyConflict, MergedBranches, CleanedPaths, CleanedBranches;
    var more, k := results + [r], |results|;
    assert more[..k] == results;
    forall i | 0 <= i < k ensures more[i] == results[i] && more[..i] == results[..i] {}
  }

  lemma NothingMerged(conflicts: Conflicts, o: Repo, slots: seq<BatchSlot>)
    ensures MergedBack(conflicts, o, o, slots, [])
  {
    assert o.worktrees - {} == o.worktrees && o.branches - {} == o.branches && o.driver + [] == o.driver;
  }

  /** Once the index is unmerged nothing merges any more. */
  lemma NothingMergesAfterConflict(conflicts: Conflicts, o: Repo, slots: seq<BatchSlot>, results: seq<BatchResult>)
    requires |results| <= |slots| && Decided(conflicts, o, slots, results)
    ensures ConflictsStick(results)
    ensures o.unmerged ==> forall i :: 0 <= i < |results| ==> !results[i].Merged?
  {
    forall i, j | 0 <= i < j < |results| && results[i].Conflict? ensures !results[j].Merged? {
      assert results[..j][i].Conflict?;
    }
  }

  /** The slots from `i` on are in place, and no two share a path or a branch. */
  predicate AwaitMerge(worktrees: map<string, string>, branches: set<string>, slots: seq<BatchSlot>, i: nat) {
    && (forall j :: i <= j < |slots| ==> Linked(worktrees, branches, slots[j].slot))
    && (forall j, k :: i <= j < k < |slots| ==>
          slots[j].slot.path != slots[k].slot.path && slots[j].slot.branch != slots[k].slot.branch)
  }

  lemma OneLessWaiting(conflicts: Conflicts, n: Repo, n': Repo, slots: seq<BatchSlot>, i: nat, r: BatchResult)
    requires i < |slots| && AwaitMerge(n.worktrees, n.branches, slots, i)
    requires MergedNext(conflicts, n, n', slots[i], r)
    ensures AwaitMerge(n'.worktrees, n'.branches, slots, i + 1)
  {
    hide Fits;
  }

  lemma NextIsLinked(n: Repo, slots: seq<BatchSlot>, i: nat)
    requires i < |slots| && AwaitMerge(n.worktrees, n.branches, slots, i)
    ensures Linked(n.worktrees, n.branches, slots[i].slot)
  {
  }

  /** `n` is the repository between the slots merged back and the one that failed. */
  method MergeBack(git: Git, slots: seq<BatchSlot>)
    returns (r: Result<seq<BatchResult>, GitError>, ghost sofar: seq<BatchResult>, ghost n: Repo)
    modifies git
    ensures |sofar| <= |slots| && MergedBack(git.conflicts, old(git.Here()), n, slots, sofar)
    ensures r.Ok? ==> r.value == sofar && |sofar| == |slots| && n == git.Here()
    ensures r.Err? ==> |sofar| < |slots| && Interrupted(git.conflicts, n, git.Here(), slots[|sofar|])
    ensures r.Ok? ==> git.Went(old(git.calls), true)
    ensures old(AwaitMerge(git.worktrees, git.branches, slots, 0)) ==> git.Went(old(git.calls), r.Ok?)
  {
    var results: seq<BatchResult> := [];
    ghost var o := git.Here();
    ghost var ready := AwaitMerge(git.worktrees, git.branches, slots, 0);
    NothingMerged(git.conflicts, o, slots);
    hide MergedBack, AwaitMerge, Linked, MergedNext, Interrupted;
    for i := 0 to |slots|
      invariant |results| == i && MergedBack(git.conflicts, o, git.Here(), slots, results)
      invariant git.Went(old(git.calls), true)
      invariant ready ==> AwaitMerge(git.worktrees, git.branches, slots, i)
    {
      n := git.Here();
      if ready { NextIsLinked(n, slots, i); }
      var one := MergeBackOne(git, slots[i]);
      if one.Err? { return Err(one.error), results, n; }
      MergedOneMore(git.conflicts, o, n, git.Here(), slots, results, one.value);
      if ready { OneLessWaiting(git.conflicts, n, git.Here(), slots, i, one.value); }
      results := results + [one.value];
    }
    return Ok(results), results, git.Here();
  }

  // ------------------------------------------------- what the documentation says

  /** The documented policy for one slot: a conflict means that this merge conflicted. */
  function Documented(conflicts: Conflicts, driver: seq<string>, s: BatchSlot): BatchResult {
    match s.outcome
    case Failure(error) => AgentFailed(s.slot.bead, error)
    case Success =>
      if conflicts(driver, s.slot.branch) then Conflict(s.slot.bead, s.slot.path, s.slot.branch)
      else Merged(s.slot.bead)
  }

  /** The results if every slot were decided by its own merge. */
  function Intended(conflicts: Conflicts, driver: seq<string>, slots: seq<BatchSlot>): (r: seq<BatchResult>)
    ensures |r| == |slots|
  {
    if slots == [] then []
    else
      var k := |slots| - 1;
      var before := Intended(conflicts, driver, slots[..k]);
      before + [Documented(conflicts, driver + MergedBranches(slots[..k], before), slots[k])]
  }

  lemma {:induction false} MergedBranchesPrefix(slots: seq<BatchSlot>, k: nat, results: seq<BatchResult>)
    requires |results| <= k <= |slots|
    ensures MergedBranches(slots[..k], results) == MergedBranches(slots, results)
  {
    if results != [] { MergedBranchesPrefix(slots, k, results[..|results| - 1]); }
  }

  lemma DecidedPrefix(conflicts: Conflicts, o: Repo, slots: seq<BatchSlot>, results: seq<BatchResult>, k: nat)
    requires |results| == |slots| && k <= |slots| && Decided(conflicts, o, slots, results)
    ensures Decided(conflicts, o, slots[..k], results[..k])
  {
    hide AnyConflict, MergedBranches, Fits;
    forall i | 0 <= i < k
      ensures results[..k][..i] == results[..i]
      ensures MergedBranches(slots[..k], results[..i]) == MergedBranches(slots, results[..i])
    {
      MergedBranchesPrefix(slots, k, results[..i]);
    }
  }

  /** Nothing merges after a conflict, and nothing at all if the index was unmerged before. */
  predicate Sticks(o: Repo, results: seq<BatchResult>) {
    ConflictsStick(results) && (o.unmerged ==> forall i :: 0 <= i < |results| ==> !results[i].Merged?)
  }

  /** The results are the documented ones exactly if the documented ones stick. */
  lemma AsDocumentedIff(conflicts: Conflicts, o: Repo, slots: seq<BatchSlot>, results: seq<BatchResult>)
    requires |results| == |slots| && Decided(conflicts, o, slots, results)
    ensures results == Intended(conflicts, o.driver, slots) <==> Sticks(o, Intended(conflicts, o.driver, slots))
  {
    NothingMergesAfterConflict(conflicts, o, slots, results);
    if Sticks(o, Intended(conflicts, o.driver, slots)) {
      AsDocumented(conflicts, o, slots, results);
    }
  }

  lemma {:induction false} AsDocumented(conflicts: Conflicts, o: Repo, slots: seq<BatchSlot>,
                                        results: seq<BatchResult>)
    requires |results| == |slots| && Decided(conflicts, o, slots, results)
    requires Sticks(o, Intended(conflicts, o.driver, slots))
    ensures results == Intended(conflicts, o.driver, slots)
    decreases |slots|
  {
    hide Decided, MergedBranches, Documented;
    if slots != [] {
      var k := |slots| - 1;
      var intended, before := Intended(conflicts, o.driver, slots), Intended(conflicts, o.driver, slots[..k]);
      var last := Documented(conflicts, o.driver + MergedBranches(slots[..k], before), slots[k]);
      assert intended == before + [last];
      SticksBefore(o, before, last);
      DecidedPrefix(conflicts, o, slots, results, k);
      AsDocumented(conflicts, o, slots[..k], results[..k]);
      MergedBranchesPrefix(slots, k, before);
      LastAsDocumented(conflicts, o, slots, results);
      assert results == results[..k] + [results[k]];
    }
  }

  lemma SticksBefore(o: Repo, before: seq<BatchResult>, last: BatchResult)
    requires Sticks(o, before + [last])
    ensures Sticks(o, before)
    ensures last.Merged? ==> !o.unmerged && forall i :: 0 <= i < |before| ==> !before[i].Conflict?
  {
    var all, k := before + [last], |before|;
    assert all[k] == last && forall i :: 0 <= i < k ==> all[i] == before[i];
  }

  lemma LastAsDocumented(conflicts: Conflicts, o: Repo, slots: seq<BatchSlot>, results: seq<BatchResult>)
    requires slots != [] && |results| == |slots| && Decided(conflicts, o, slots, results)
    requires var k := |slots| - 1;
             var last := Documented(conflicts, o.driver + MergedBranches(slots, results[..k]), slots[k]);
             last.Merged? ==> !o.unmerged && forall i :: 0 <= i < k ==> !results[..k][i].Conflict?
    ensures var k := |slots| - 1;
            results[k] == Documented(conflicts, o.driver + MergedBranches(slots, results[..k]), slots[k])
  {
    hide MergedBranches;
    var k := |slots| - 1;
    assert Fits(slots[k], results[k]);
  }

  /** A clean branch reported as a conflict: the first of two succeeded beads conflicts, the
      second would merge cleanly, and both are conflicts, against the documentation. */
  lemma CleanBranchReportedAsConflict(a: BatchSlot, b: BatchSlot, conflicts: Conflicts, o: Repo,
                                      results: seq<BatchResult>)
    requires a.outcome.Success? && b.outcome.Success? && !o.unmerged
    requires conflicts(o.driver, a.slot.branch) && !conflicts(o.driver, b.slot.branch)
    requires |results| == 2 && Decided(conflicts, o, [a, b], results)
    ensures results == [Conflict(a.slot.bead, a.slot.path, a.slot.branch),
                        Conflict(b.slot.bead, b.slot.path, b.slot.branch)]
    ensures Intended(conflicts, o.driver, [a, b])[1] == Merged(b.slot.bead)
  {
    hide MergedBranches;
    var slots := [a, b];
    assert Fits(slots[0], results[0]) && Fits(slots[1], results[1]);
    assert results[..0] == [] && results[..1] == [results[0]] && o.driver + [] == o.driver;
    NoBranches(slots, results[0]);
    assert AnyConflict(results[..1]) by { assert results[..1][0].Conflict?; }
    NoBranches([a], results[0]);
    assert slots[..1] == [a] && [a][..0] == [];
    NoBranches([], results[0]);
    assert Intended(conflicts, o.driver, [a]) == [results[0]];
  }

  lemma NoBranches(slots: seq<BatchSlot>, r: BatchResult)
    ensures MergedBranches(slots, []) == []
    ensures slots != [] && r.Conflict? ==> MergedBranches(slots, [r]) == []
  {
    if slots != [] && r.Conflict? { assert [r][..0] == []; }
  }

  // ------------------------------------------------------------------ the batch

  lemma {:induction false} JoinedMembers(slots: seq<Slot>, agents: Agents)
    ensures forall b :: b in Joined(slots, agents) <==> b.slot in slots && agents(b.slot) == Some(b.outcome)
  {
    if slots != [] {
      JoinedMembers(slots[1..], agents);
      assert slots == [slots[0]] + slots[1..];
    }
  }

  lemma {:induction false} JoinedOnce(slots: seq<Slot>, agents: Agents, b: BatchSlot)
    requires DistinctSlots(slots)
    ensures multiset(Joined(slots, agents))[b] <= 1
  {
    if slots != [] {
      var rest := slots[1..];
      assert forall i :: 0 <= i < |rest| ==> rest[i] == slots[i + 1];
      JoinedOnce(rest, agents, b);
      JoinedMembers(rest, agents);
      assert slots[0] !in rest;
      var tail := Joined(rest, agents);
      if agents(slots[0]).Some? {
        var first := BatchSlot(slots[0], agents(slots[0]).value);
        assert first !in tail;
        assert Joined(slots, agents) == [first] + tail;
      }
    }
  }

  /** Whatever the completion order: the finished slots are the joined ones, each once. */
  lemma FinishedSlots(slots: seq<Slot>, agents: Agents, finished: seq<BatchSlot>)
    requires DistinctSlots(slots) && multiset(finished) == multiset(Joined(slots, agents))
    ensures |finished| == |Joined(slots, agents)|
    ensures forall i :: 0 <= i < |finished| ==>
      finished[i].slot in slots && agents(finished[i].slot) == Some(finished[i].outcome)
    ensures forall s :: s in slots && agents(s).Some? ==> BatchSlot(s, agents(s).value) in finished
    ensures forall i, j :: 0 <= i < j < |finished| ==> finished[i].slot != finished[j].slot
  {
    JoinedMembers(slots, agents);
    assert |multiset(finished)| == |finished| && |multiset(Joined(slots, agents))| == |Joined(slots, agents)|;
    forall b ensures b in finished <==> b in Joined(slots, agents) {
      assert b in multiset(finished) <==> b in multiset(Joined(slots, agents));
    }
    forall i, j | 0 <= i < j < |finished| ensures finished[i].slot != finished[j].slot {
      JoinedOnce(slots, agents, finished[i]);
      SecondCopy(finished, i, j);
      assert finished[i] in finished && finished[j] in finished;
    }
  }

  lemma SecondCopy(s: seq<BatchSlot>, i: nat, j: nat)
    requires i < j < |s|
    ensures s[i] == s[j] ==> multiset(s)[s[i]] >= 2
  {
    assert s == s[..j] + [s[j]] + s[j + 1..];
    assert s[..j][i] == s[i];
    assert s[i] in multiset(s[..j]);
  }

  lemma {:induction false} CleanedMembers(slots: seq<BatchSlot>, results: seq<BatchResult>)
    requires |results| <= |slots|
    ensures forall s :: s in Cleaned(slots, results) <==>
      exists i :: 0 <= i < |results| && !results[i].Conflict? && slots[i].slot == s
  {
    if results != [] {
      var k := |results| - 1;
      CleanedMembers(slots, results[..k]);
      forall s | s in Cleaned(slots, results)
        ensures exists i :: 0 <= i < |results| && !results[i].Conflict? && slots[i].slot == s
      {
        if s in Cleaned(slots, results[..k]) {
          var i :| 0 <= i < k && !results[..k][i].Conflict? && slots[i].slot == s;
          assert !results[i].Conflict?;
        }
      }
      forall i | 0 <= i < |results| && !results[i].Conflict? ensures slots[i].slot in Cleaned(slots, results) {
        if i < k { assert results[..k][i] == results[i]; }
      }
    }
  }

  /** What a finished batch leaves of its own worktrees and branches. */
  ghost predicate LeftBehind(slots: seq<Slot>, agents: Agents, finished: seq<BatchSlot>, results: seq<BatchResult>,
                             paths: set<string>, branches: set<string>)
    requires |results| == |finished|
  {
    && (forall i :: 0 <= i < |finished| ==>
        && (finished[i].slot.path in paths <==> results[i].Conflict?)
        && (finished[i].slot.branch in branches <==> results[i].Conflict?))
    && (forall s :: s in slots && agents(s).None? ==> s.path in paths && s.branch in branches)
  }

  lemma BatchLeavesConflicts(slots: seq<Slot>, agents: Agents, finished: seq<BatchSlot>, results: seq<BatchResult>,
                             oldPaths: set<string>, oldBranches: set<string>)
    requires DistinctSlots(slots) && multiset(finished) == multiset(Joined(slots, agents))
    requires |results| == |finished|
    requires PathsOf(slots) !! oldPaths && BranchesOf(slots) !! oldBranches
    ensures LeftBehind(slots, agents, finished, results,
                       oldPaths + PathsOf(slots) - CleanedPaths(finished, results),
                       oldBranches + BranchesOf(slots) - CleanedBranches(finished, results))
    ensures CleanedPaths(finished, results) <= PathsOf(slots)
    ensures CleanedBranches(finished, results) <= BranchesOf(slots)
  {
    FinishedSlots(slots, agents, finished);
    CleanedMembers(finished, results);
    var cleaned := Cleaned(finished, results);
    forall i | 0 <= i < |finished| ensures finished[i].slot in cleaned <==> !results[i].Conflict? {}
    forall s, t | s in slots && t in slots && (s.path == t.path || s.branch == t.branch) ensures s == t {
      var i :| 0 <= i < |slots| && slots[i] == s;
      var j :| 0 <= j < |slots| && slots[j] == t;
    }
    forall s | s in slots
      ensures s.path in CleanedPaths(finished, results) <==> s in cleaned
      ensures s.branch in CleanedBranches(finished, results) <==> s in cleaned
    {
    }
    forall s | s in slots && agents(s).None? ensures s !in cleaned {}
  }

  lemma DistinctFinished(slots: seq<Slot>, agents: Agents, finished: seq<BatchSlot>)
    requires DistinctSlots(slots) && multiset(finished) == multiset(Joined(slots, agents))
    ensures forall j, k :: 0 <= j < k < |finished| ==>
      finished[j].slot.path != finished[k].slot.path && finished[j].slot.branch != finished[k].slot.branch
  {
    FinishedSlots(slots, agents, finished);
    forall j, k | 0 <= j < k < |finished|
      ensures finished[j].slot.path != finished[k].slot.path && finished[j].slot.branch != finished[k].slot.branch
    {
      var a :| 0 <= a < |slots| && slots[a] == finished[j].slot;
      var b :| 0 <= b < |slots| && slots[b] == finished[k].slot;
    }
  }

  lemma FinishedAwaitMerge(slots: seq<Slot>, agents: Agents, finished: seq<BatchSlot>,
                           worktrees: map<string, string>, branches: set<string>)
    requires DistinctSlots(slots) && multiset(finished) == multiset(Joined(slots, agents))
    requires AllLinked(worktrees, branches, slots)
    ensures AwaitMerge(worktrees, branches, finished, 0)
  {
    hide Linked, Joined, DistinctSlots;
    FinishedSlots(slots, agents, finished);
    DistinctFinished(slots, agents, finished);
    forall j | 0 <= j < |finished| ensures Linked(worktrees, branches, finished[j].slot) {
      var a :| 0 <= a < |slots| && slots[a] == finished[j].slot;
    }
  }

  /** What creation says about the repository it leaves. */
  lemma CreatedKeeps(spec: string, beads: seq<string>, made: seq<Slot>, o: Repo, n: Repo)
    requires Created(spec, beads, made, o, n)
    ensures o.worktrees.Keys <= n.worktrees.Keys && o.branches <= n.branches && DistinctSlots(made)
    ensures PathsOf(made) !! o.worktrees.Keys && BranchesOf(made) !! o.branches
    ensures n.worktrees.Keys == o.worktrees.Keys + PathsOf(made) && n.branches == o.branches + BranchesOf(made)
    ensures AllLinked(o.worktrees, o.branches, []) ==> AllLinked(n.worktrees, n.branches, made)
    ensures |made| == |beads| ==> Startable(spec, beads, o.worktrees.Keys, o.branches)
  {
    hide AllLinked, DistinctSlots, Startable, PathsOf, BranchesOf;
    if |made| == |beads| { AllCreated(spec, beads, made, o, n); }
  }

  lemma MergedLeaves(slots: seq<Slot>, agents: Agents, finished: seq<BatchSlot>, results: seq<BatchResult>,
                     conflicts: Conflicts, o: Repo, start: Repo, n: Repo)
    requires DistinctSlots(slots) && multiset(finished) == multiset(Joined(slots, agents))
    requires PathsOf(slots) !! o.worktrees.Keys && BranchesOf(slots) !! o.branches
    requires start.worktrees.Keys == o.worktrees.Keys + PathsOf(slots)
    requires start.branches == o.branches + BranchesOf(slots)
    requires |results| == |finished| && MergedBack(conflicts, start, n, finished, results)
    ensures LeftBehind(slots, agents, finished, results, n.worktrees.Keys, n.branches)
    ensures ConflictsStick(results)
    ensures o.worktrees.Keys <= n.worktrees.Keys && o.branches <= n.branches
  {
    NothingMergesAfterConflict(conflicts, start, finished, results);
    hide Decided, DistinctSlots, Joined, PathsOf, BranchesOf, CleanedPaths, CleanedBranches, MergedBranches,
      LeftBehind, ConflictsStick, AnyConflict;
    BatchLeavesConflicts(slots, agents, finished, results, o.worktrees.Keys, o.branches);
    assert n.worktrees.Keys == start.worktrees.Keys - CleanedPaths(finished, results);
  }

  /** The slots not yet merged back stay in their worktrees, and the one that failed keeps
      at least its branch. */
  ghost predicate LeftInPlace(finished: seq<BatchSlot>, from: nat, paths: set<string>, branches: set<string>) {
    forall j :: from <= j < |finished| ==>
      finished[j].slot.branch in branches && (j > from ==> finished[j].slot.path in paths)
  }

  lemma InterruptedLeaves(slots: seq<Slot>, agents: Agents, finished: seq<BatchSlot>, sofar: seq<BatchResult>,
                          conflicts: Conflicts, o: Repo, start: Repo, n: Repo, n': Repo)
    requires DistinctSlots(slots) && multiset(finished) == multiset(Joined(slots, agents))
    requires PathsOf(slots) !! o.worktrees.Keys && BranchesOf(slots) !! o.branches
    requires start.worktrees.Keys == o.worktrees.Keys + PathsOf(slots)
    requires start.branches == o.branches + BranchesOf(slots)
    requires |sofar| < |finished| && MergedBack(conflicts, start, n, finished, sofar)
    requires Interrupted(conflicts, n, n', finished[|sofar|])
    ensures LeftInPlace(finished, |sofar|, n'.worktrees.Keys, n'.branches)
    ensures o.worktrees.Keys <= n'.worktrees.Keys && o.branches <= n'.branches
  {
    hide Decided, MergedBranches, AnyConflict, Cleaned, Joined, DistinctSlots;
    FinishedSlots(slots, agents, finished);
    CleanedMembers(finished, sofar);
    DistinctFinished(slots, agents, finished);
    forall j | 0 <= j < |finished|
      ensures finished[j].slot.branch in BranchesOf(slots) && finished[j].slot.path in PathsOf(slots)
    {
      assert finished[j].slot in slots;
    }
  }

  /** For every completion order: one result per joined worker, decided by the merges before
      it; the driver gains exactly the merged branches in result order; of the batch's
      worktrees and branches only those of conflicts and of panicked workers are left.  On
      an error what was merged stays merged and what was not stays in its worktree. */
  method RunParallelBatch(git: Git, spec: string, beads: seq<string>, agents: Agents)
    returns (r: Result<seq<BatchResult>, GitError>, ghost slots: seq<Slot>, ghost finished: seq<BatchSlot>,
             ghost sofar: seq<BatchResult>, ghost start: Repo, ghost n: Repo)
    modifies git
    ensures Created(spec, beads, slots, old(git.Here()), start)
    ensures |slots| < |beads| ==> r.Err? && git.Here() == start && finished == []
    ensures |slots| == |beads| ==> multiset(finished) == multiset(Joined(slots, agents))
    ensures |sofar| <= |finished| && MergedBack(git.conflicts, start, n, finished, sofar)
    ensures r.Ok? ==> |slots| == |beads| && r.value == sofar && |sofar| == |finished| && git.Here() == n
    ensures r.Ok? ==> LeftBehind(slots, agents, finished, r.value, git.worktrees.Keys, git.branches)
    ensures r.Ok? ==> ConflictsStick(r.value)
    ensures r.Err? && |slots| == |beads| ==>
      && |sofar| < |finished| && Interrupted(git.conflicts, n, git.Here(), finished[|sofar|])
      && LeftInPlace(finished, |sofar|, git.worktrees.Keys, git.branches)
    ensures old(git.worktrees.Keys) <= git.worktrees.Keys && old(git.branches) <= git.branches
    ensures r.Ok? ==>
      git.Went(old(git.calls), true) && Startable(spec, beads, old(git.worktrees.Keys), old(git.branches))
    ensures old(AllLinked(git.worktrees, git.branches, [])
                && Startable(spec, beads, git.worktrees.Keys, git.branches)) ==>
      git.Went(old(git.calls), r.Ok?)
    ensures git.Reliable() && old(AllLinked(git.worktrees, git.branches, [])) ==>
      (r.Ok? <==> Startable(spec, beads, old(git.worktrees.Keys), old(git.branches)))
  {
    hide Created, Startable, AllLinked, AwaitMerge, MergedBack, Interrupted, LeftBehind, LeftInPlace, ConflictsStick,
      Joined, PathsOf, BranchesOf, DistinctSlots, Decided, Fits;
    finished, sofar := [], [];
    var created;
    created, slots := CreateWorktrees(git, spec, beads);
    ghost var o := old(git.Here());
    start, n := git.Here(), git.Here();
    NothingMerged(git.conflicts, start, finished);
    CreatedKeeps(spec, beads, slots, o, start);
    if created.Err? { return Err(created.error), slots, finished, sofar, start, n; }
    var joined := RunConcurrentSpawns(created.value, agents);
    finished := joined;
    if AllLinked(git.worktrees, git.branches, slots) {
      FinishedAwaitMerge(slots, agents, finished, git.worktrees, git.branches);
    }
    var merged;
    merged, sofar, n := MergeBack(git, joined);
    if merged.Err? {
      InterruptedLeaves(slots, agents, finished, sofar, git.conflicts, o, start, n, git.Here());
      return Err(merged.error), slots, finished, sofar, start, n;
    }
    MergedLeaves(slots, agents, finished, sofar, git.conflicts, o, start, n);
    return merged, slots, finished, sofar, start, n;
  }

  /** The projections of a batch outcome. */
  function MergedIds(results: seq<BatchResult>): seq<string> {
    if results == [] then [] else (if results[0].Merged? then [results[0].bead] else []) + MergedIds(results[1..])
  }

  function ConflictIds(results: seq<BatchResult>): seq<string> {
    if results == [] then [] else (if results[0].Conflict? then [results[0].bead] else []) + ConflictIds(results[1..])
  }

  function FailureIds(results: seq<BatchResult>): seq<string> {
    if results == [] then [] else (if results[0].AgentFailed? then [results[0].bead] else []) + FailureIds(results[1..])
  }

  function BeadIds(results: seq<BatchResult>): seq<string> {
    if results == [] then [] else [results[0].bead] + BeadIds(results[1..])
  }

  /** The three projections split the results' beads among them. */
  lemma {:induction false} ProjectionsPartition(results: seq<BatchResult>)
    ensures multiset(MergedIds(results)) + multiset(ConflictIds(results)) + multiset(FailureIds(results))
         == multiset(BeadIds(results))
  {
    if results != [] { ProjectionsPartition(results[1..]); }
  }

  /** Each projection lists the beads of its own kind of result, in the order of the results:
      it splits as they do, and on a single result is that bead or nothing. */
  lemma {:induction false} MergedInOrder(a: seq<BatchResult>, b: seq<BatchResult>, r: BatchResult)
    ensures MergedIds(a + b) == MergedIds(a) + MergedIds(b)
    ensures MergedIds([r]) == match r case Merged(bead) => [bead] case _ => []
  {
    hide MergedIds;
    MergedCons(r, []);
    assert [r] + [] == [r];
    if a == [] {
      assert a + b == b;
    } else {
      MergedInOrder(a[1..], b, r);
      MergedCons(a[0], a[1..]);
      MergedCons(a[0], a[1..] + b);
      assert [a[0]] + a[1..] == a && [a[0]] + (a[1..] + b) == a + b;
    }
  }

  lemma MergedCons(first: BatchResult, rest: seq<BatchResult>)
    ensures MergedIds([first] + rest)
         == (match first case Merged(bead) => [bead] case _ => []) + MergedIds(rest)
    ensures MergedIds([]) == []
  {
    assert ([first] + rest)[1..] == rest;
  }

  lemma {:induction false} ConflictsInOrder(a: seq<BatchResult>, b: seq<BatchResult>, r: BatchResult)
    ensures ConflictIds(a + b) == ConflictIds(a) + ConflictIds(b)
    ensures ConflictIds([r]) == match r case Conflict(bead, _, _) => [bead] case _ => []
  {
    hide ConflictIds;
    ConflictsCons(r, []);
    assert [r] + [] == [r];
    if a == [] {
      assert a + b == b;
    } else {
      ConflictsInOrder(a[1..], b, r);
      ConflictsCons(a[0], a[1..]);
      ConflictsCons(a[0], a[1..] + b);
      assert [a[0]] + a[1..] == a && [a[0]] + (a[1..] + b) == a + b;
    }
  }

  lemma ConflictsCons(first: BatchResult, rest: seq<BatchResult>)
    ensures ConflictIds([first] + rest)
         == (match first case Conflict(bead, _, _) => [bead] case _ => []) + ConflictIds(rest)
    ensures ConflictIds([]) == []
  {
    assert ([first] + rest)[1..] == rest;
  }

  lemma {:induction false} FailuresInOrder(a: seq<BatchResult>, b: seq<BatchResult>, r: BatchResult)
    ensures FailureIds(a + b) == FailureIds(a) + FailureIds(b)
    ensures FailureIds([r]) == match r case AgentFailed(bead, _) => [bead] case _ => []
  {
    hide FailureIds;
    FailuresCons(r, []);
    assert [r] + [] == [r];
    if a == [] {
      assert a + b == b;
    } else {
      FailuresInOrder(a[1..], b, r);
      FailuresCons(a[0], a[1..]);
      FailuresCons(a[0], a[1..] + b);
      assert [a[0]] + a[1..] == a && [a[0]] + (a[1..] + b) == a + b;
    }
  }

  lemma FailuresCons(first: BatchResult, rest: seq<BatchResult>)
    ensures FailureIds([first] + rest)
         == (match first case AgentFailed(bead, _) => [bead] case _ => []) + FailureIds(rest)
    ensures FailureIds([]) == []
  {
    assert ([first] + rest)[1..] == rest;
  }

  lemma {:induction false} MergedBranchMembers(slots: seq<BatchSlot>, results: seq<BatchResult>)
    requires |results| <= |slots|
    ensures forall b :: b in MergedBranches(slots, results) ==>
      exists i :: 0 <= i < |results| && results[i].Merged? && slots[i].slot.branch == b
  {
    if results != [] {
      var k := |results| - 1;
      MergedBranchMembers(slots, results[..k]);
      forall b | b in MergedBranches(slots, results)
        ensures exists i :: 0 <= i < |results| && results[i].Merged? && slots[i].slot.branch == b
      {
        if b in MergedBranches(slots, results[..k]) {
          var i :| 0 <= i < k && results[..k][i].Merged? && slots[i].slot.branch == b;
          assert results[i].Merged?;
        }
      }
    }
  }

  /** The branch of an agent that failed never reaches the driver. */
  lemma FailedNeverMerged(slots: seq<Slot>, agents: Agents, finished: seq<BatchSlot>, results: seq<BatchResult>, k: nat)
    requires DistinctSlots(slots) && multiset(finished) == multiset(Joined(slots, agents))
    requires |results| == |finished| && forall i :: 0 <= i < |finished| ==> Fits(finished[i], results[i])
    requires k < |finished| && finished[k].outcome.Failure?
    ensures finished[k].slot.branch !in MergedBranches(finished, results)
  {
    FinishedSlots(slots, agents, finished);
    MergedBranchMembers(finished, results);
    forall i | 0 <= i < |results| && results[i].Merged? ensures finished[i].slot.branch != finished[k].slot.branch {
      assert i != k && finished[i].slot != finished[k].slot;
      var a :| 0 <= a < |slots| && slots[a] == finished[i].slot;
      var b :| 0 <= b < |slots| && slots[b] == finished[k].slot;
    }
  }
}
