/** The git client of the parallel batch over an abstract repository. */
module GitRepo {
  import opened Prelude
  import opened LockPaths
  import Text

  datatype Slot = Slot(bead: string, path: string, branch: string)
  datatype MergeResult = Clean | Conflicted
  datatype GitError = GitError

  /** Whether merging a branch into the driver as it stands conflicts. */
  type Conflicts = (seq<string>, string) -> bool

  function BranchName(spec: string, bead: string): string {
    "loom/" + spec + "/" + bead
  }

  function WorktreePath(spec: string, bead: string): string {
    ".wrapix/worktree/" + spec + "/" + bead
  }

  function SlotFor(spec: string, bead: string): Slot {
    Slot(bead, WorktreePath(spec, bead), BranchName(spec, bead))
  }

  lemma SlotsDistinct(spec: string, a: string, b: string)
    requires WorktreePath(spec, a) == WorktreePath(spec, b) || BranchName(spec, a) == BranchName(spec, b)
    ensures a == b
  {
    var p, q := ".wrapix/worktree/" + spec + "/", "loom/" + spec + "/";
    assert WorktreePath(spec, a)[|p|..] == a && WorktreePath(spec, b)[|p|..] == b;
    assert BranchName(spec, a)[|q|..] == a && BranchName(spec, b)[|q|..] == b;
  }

  /** Where a bead works: three directories and the bead, and a branch under the spec's. */
  lemma SlotLayout(spec: string, bead: string)
    requires '/' !in spec && '/' !in bead
    ensures Components(WorktreePath(spec, bead)) == [".wrapix", "worktree", spec, bead]
    ensures Components(BranchName(spec, bead)) == ["loom", spec, bead]
  {
    hide Components;
    assert WorktreePath(spec, bead) == ".wrapix" + "/" + ("worktree" + "/" + (spec + "/" + bead));
    assert BranchName(spec, bead) == "loom" + "/" + (spec + "/" + bead);
    ComponentsCons(".wrapix", "worktree" + "/" + (spec + "/" + bead));
    ComponentsCons("worktree", spec + "/" + bead);
    ComponentsCons("loom", spec + "/" + bead);
    ComponentsCons(spec, bead);
    OneComponent(bead);
  }

  lemma OneComponent(s: string)
    requires '/' !in s
    ensures Components(s) == [s]
  {
    Text.FirstIndexMissing(s, '/');
  }

  /** A branch name is a path: it cannot lie below another one. */
  predicate Below(name: string, other: string) {
    other + "/" <= name
  }

  lemma BelowHasSlash(name: string, other: string)
    ensures Below(name, other) ==> '/' in name
    ensures Below(name, other) <==> exists rest :: name == other + "/" + rest
  {
    if Below(name, other) {
      assert name[|other|] == '/';
      assert name == other + "/" + name[|other| + 1..];
    }
    forall rest | name == other + "/" + rest ensures Below(name, other) {
      assert name[..|other| + 1] == other + "/";
    }
  }

  /** Branches of one spec lie below each other exactly as their beads do. */
  lemma BranchesBelow(spec: string, a: string, b: string)
    ensures Below(BranchName(spec, a), BranchName(spec, b)) <==> Below(a, b)
  {
    var q := "loom/" + spec + "/";
    assert BranchName(spec, a) == q + a && BranchName(spec, b) + "/" == q + (b + "/");
    if Below(a, b) {
      assert a == (b + "/") + a[|b| + 1..];
      assert q + a == q + (b + "/") + a[|b| + 1..];
    }
    if q + (b + "/") <= q + a {
      assert (q + a)[|q|..] == a && (q + (b + "/"))[|q|..] == b + "/";
    }
  }

  /** What keeps git from creating a branch. */
  predicate RefClash(branches: set<string>, name: string) {
    exists b :: b in branches && (b == name || Below(name, b) || Below(b, name))
  }

  /** Driver: the branches merged into it, in order.  Worktrees: each path's branch.  A
      conflicted merge leaves unmerged index entries behind. */
  datatype Repo = Repo(driver: seq<string>, branches: set<string>, worktrees: map<string, string>, unmerged: bool)

  class Git {
    const conflicts: Conflicts
    /** Git commands that fail on their own, by position; such a command has no effect. */
    const faults: nat -> bool
    var calls: nat
    var driver: seq<string>
    var branches: set<string>
    var worktrees: map<string, string>
    var unmerged: bool

    constructor (driver: seq<string>, branches: set<string>, worktrees: map<string, string>, unmerged: bool,
                 conflicts: Conflicts, faults: nat -> bool)
      ensures this.driver == driver && this.branches == branches && this.worktrees == worktrees
      ensures this.unmerged == unmerged && this.conflicts == conflicts && this.faults == faults && calls == 0
    {
      this.driver, this.branches, this.worktrees, this.unmerged := driver, branches, worktrees, unmerged;
      this.conflicts, this.faults, calls := conflicts, faults, 0;
    }

    function Here(): Repo
      reads this`driver, this`branches, this`worktrees, this`unmerged
    {
      Repo(driver, branches, worktrees, unmerged)
    }

    ghost predicate Reliable() {
      forall k :: !faults(k)
    }

    /** No command since `from` failed on its own, or the last one did. */
    ghost predicate Went(from: nat, ok: bool)
      reads this`calls
    {
      from <= calls && if ok then forall k :: from <= k < calls ==> !faults(k) else from < calls && faults(calls - 1)
    }

    method Command() returns (ok: bool)
      modifies this`calls
      ensures ok == !faults(old(calls)) && calls == old(calls) + 1
    {
      ok := !faults(calls);
      calls := calls + 1;
    }

    /** `git worktree add -b`: needs a fresh branch that clashes with no other, and a
        fresh path. */
    method CreateWorktree(spec: string, bead: string) returns (r: Result<Slot, GitError>)
      modifies this`calls, this`branches, this`worktrees
      ensures r.Ok? ==>
        && r.value == SlotFor(spec, bead)
        && !RefClash(old(branches), r.value.branch) && r.value.path !in old(worktrees)
        && branches == old(branches) + {r.value.branch}
        && worktrees == old(worktrees)[r.value.path := r.value.branch]
      ensures r.Err? ==> branches == old(branches) && worktrees == old(worktrees)
      ensures r.Ok? ==> Went(old(calls), true)
      ensures !RefClash(old(branches), BranchName(spec, bead)) && WorktreePath(spec, bead) !in old(worktrees) ==>
        Went(old(calls), r.Ok?)
    {
      var slot := SlotFor(spec, bead);
      var ok := Command();
      if !ok || RefClash(branches, slot.branch) || slot.path in worktrees { return Err(GitError.GitError); }
      branches := branches + {slot.branch};
      worktrees := worktrees[slot.path := slot.branch];
      r := Ok(slot);
    }

    /** `git worktree remove --force`, then `git worktree prune`. */
    method RemoveWorktree(path: string) returns (r: Result<(), GitError>)
      modifies this`calls, this`worktrees
      ensures r.Ok? ==> worktrees == old(worktrees) - {path}
      ensures r.Err? ==> worktrees == old(worktrees) || worktrees == old(worktrees) - {path}
      ensures r.Ok? ==> path in old(worktrees) && Went(old(calls), true)
      ensures path in old(worktrees) ==> Went(old(calls), r.Ok?)
    {
      var ok := Command();
      if !ok || path !in worktrees { return Err(GitError.GitError); }
      worktrees := worktrees - {path};
      ok := Command();
      if !ok { return Err(GitError.GitError); }
      r := Ok(());
    }

    /** `git branch -D`: the branch must exist and be checked out nowhere. */
    method DeleteBranch(branch: string) returns (r: Result<(), GitError>)
      modifies this`calls, this`branches
      ensures r.Ok? ==> branch in old(branches) && branches == old(branches) - {branch}
      ensures r.Err? ==> branches == old(branches)
      ensures r.Ok? ==> branch !in worktrees.Values && Went(old(calls), true)
      ensures branch in old(branches) && branch !in worktrees.Values ==> Went(old(calls), r.Ok?)
    {
      var ok := Command();
      if !ok || branch !in branches || branch in worktrees.Values { return Err(GitError.GitError); }
      branches := branches - {branch};
      r := Ok(());
    }

    /** `git merge`, and on failure `git ls-files --unmerged` to tell a conflict from any
        other error.  Git refuses to merge into an unmerged index, so an earlier conflict
        makes every later merge fail with unmerged entries listed. */
    method MergeBranch(branch: string) returns (r: Result<MergeResult, GitError>)
      modifies this`calls, this`driver, this`unmerged
      ensures r.Ok? ==> (old(unmerged) || branch in branches) && Went(old(calls), true)
      ensures old(unmerged) || branch in branches ==> Went(old(calls), r.Ok?)
      ensures r.Ok? ==> (r.value.Clean? <==> !old(unmerged) && !conflicts(old(driver), branch))
      ensures r == Ok(Clean) ==> !unmerged && driver == old(driver) + [branch]
      ensures r != Ok(Clean) ==> driver == old(driver)
      ensures r == Ok(Conflicted) ==> unmerged
      ensures old(unmerged) ==> unmerged
    {
      var ok := Command();
      if !ok { return Err(GitError.GitError); }
      if !unmerged && branch !in branches { return Err(GitError.GitError); }
      if !unmerged && !conflicts(driver, branch) {
        driver := driver + [branch];
        return Ok(Clean);
      }
      unmerged := true;
      ok := Command();
      if !ok { return Err(GitError.GitError); }
      r := Ok(Conflicted);
    }
  }
}
