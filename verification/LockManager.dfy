/** The calls of the lock manager as a program runs them: each step of a call is one step
    of the lock machine, with the steps of all other callers in between. */
module LockManager {
  import opened Prelude
  import opened Text
  import opened LockPaths
  import opened Locks

  const DEFAULT_SPEC_TIMEOUT := 5000

  datatype Outcome = Acquired | SpecBusyError | WorkspaceBusyError(name: string) | ReservedError | OpenError

  /** The lock files a directory listing leaves after the manager's filter. */
  function Listed(dir: File, entries: seq<string>): seq<File> {
    if entries == [] then []
    else
      Listed(dir, entries[..|entries| - 1])
      + (if Probed(entries[|entries| - 1]) then [dir + [entries[|entries| - 1]]] else [])
  }

  /** A directory read names every file of the locks directory. */
  ghost predicate IsListing(s: State, entries: seq<string>) {
    forall name :: name in entries <==> s.dir + [name] in s.files
  }

  lemma {:induction false} ListedMember(dir: File, entries: seq<string>, f: File)
    ensures f in Listed(dir, entries) <==> exists name :: name in entries && Probed(name) && f == dir + [name]
  {
    hide Probed;
    if entries != [] {
      var init, last := entries[..|entries| - 1], entries[|entries| - 1];
      assert entries == init + [last];
      ListedMember(dir, init, f);
      assert f in Listed(dir, entries) <==> f in Listed(dir, init) || (Probed(last) && f == dir + [last]);
    }
  }

  lemma ListingIsComplete(s: State, entries: seq<string>)
    requires IsListing(s, entries)
    ensures ListsAll(s, Listed(s.dir, entries))
  {
    hide Probed, Listed;
    var listed := Listed(s.dir, entries);
    forall i | 0 <= i < |listed| ensures IsListed(s, listed[i]) {
      ListedMember(s.dir, entries, listed[i]);
      var name :| name in entries && Probed(name) && listed[i] == s.dir + [name];
    }
    forall f | f in s.files && IsListed(s, f) ensures f in listed {
      var name := f[|s.dir|];
      assert f == s.dir + [name];
      assert name in entries;
      ListedMember(s.dir, entries, f);
    }
  }

  /** The label a busy report carries is the plain label of the held file. */
  lemma ReportedLabel(dir: File, name: string)
    requires Probed(name) && '/' !in name
    ensures SpecLockFile(dir, FileStem(name)) == dir + [name] && FileStem(name) != RESERVED
  {
    var stem := FileStem(name);
    assert name == stem + ".lock";
    hide SpecLockFile;
    PlainLockFile(dir, stem);
  }

  /** The lock machine, with a schedule of what other callers do. `history` holds every
      state so far. */
  class Manager {
    var state: State
    var turn: nat
    const others: nat -> seq<Action>
    ghost var history: seq<State>

    ghost predicate Valid() reads this {
      Run(history) && history[|history| - 1] == state
    }

    /** `p` names this call, and the other callers do not act in its name. */
    ghost predicate Mine(p: nat) {
      forall k: nat, i :: 0 <= i < |others(k)| ==> !Acts(others(k)[i], p)
    }

    constructor (dir: File, files: set<File>, clock: nat, others: nat -> seq<Action>)
      ensures Valid() && state == State(dir, 0, clock, files, map[], map[]) && this.others == others
    {
      state := State(dir, 0, clock, files, map[], map[]);
      turn := 0;
      this.others := others;
      history := [State(dir, 0, clock, files, map[], map[])];
    }

    method Do(a: Action)
      requires Valid() && Step(state, a).Some?
      modifies this
      ensures Valid() && Step(old(state), a) == Some(state) && history == old(history) + [state]
      ensures turn == old(turn)
    {
      hide Step, Initial;
      ghost var before := state;
      state := Step(state, a).value;
      assert Follows(before, state);
      history := history + [state];
    }

    /** What the other callers do between two steps of `p`. */
    method Others(p: nat)
      requires Valid() && Mine(p)
      modifies this
      ensures Valid() && old(history) <= history
      ensures Same(old(state), state, p)
    {
      hide Step, Run;
      var now := others(turn);
      turn := turn + 1;
      for i := 0 to |now|
        invariant Valid() && old(history) <= history
        invariant Same(old(state), state, p)
      {
        if Step(state, now[i]).Some? {
          OthersLeaveAlone(state, now[i], p);
          Do(now[i]);
        }
      }
    }

    /** `try_lock_and_forget`. */
    method TryLock(p: nat) returns (got: bool)
      requires Valid() && Mine(p) && p in state.procs && state.procs[p].Trying?
      modifies this
      ensures Valid() && old(history) <= history && old(state.clock) <= state.clock && p in state.procs
      ensures var call := old(state.procs[p]).call;
              if got then state.procs[p] == SpecGuard(call.spec, SpecLockFile(state.dir, call.spec))
              else IsRefused(state.procs[p], call)
    {
      hide Run, Step, SpecLockFile;
      Others(p);
      TriesOnce(state, p);
      Do(Try(p));
      GuardFile(history, |history| - 1, p);
      got := state.procs[p].SpecGuard?;
    }

    method PastDeadline(p: nat) returns (past: bool)
      requires Valid() && Mine(p) && p in state.procs && state.procs[p].Refused?
      modifies this
      ensures Valid() && old(history) <= history && old(state.clock) <= state.clock && p in state.procs
      ensures past <==> state.clock >= old(state.procs[p]).call.deadline
      ensures var call := old(state.procs[p]).call;
              if past then IsBusy(state.procs[p], call)
              else IsSleeping(state.procs[p], call, state.clock + POLL_INTERVAL)
    {
      hide Run, Step, SpecLockFile;
      Others(p);
      ChecksDeadline(state, p);
      Do(CheckDeadline(p));
      GuardFile(history, |history| - 1, p);
      past := state.procs[p].SpecBusy?;
    }

    method Sleep(p: nat, ms: nat)
      requires Valid() && p in state.procs && state.procs[p].Sleeping? && state.clock + ms >= state.procs[p].wake
      modifies this
      ensures Valid() && old(history) <= history && state.clock == old(state.clock) + ms && p in state.procs
      ensures IsTrying(state.procs[p], old(state.procs[p]).call)
    {
      hide Run, Step, SpecLockFile;
      SleepsOn(state, p, ms);
      Do(Tick(ms));
      Do(Wake(p));
    }

    /** `acquire_with_timeout`: `late(k)` is how much longer than asked the k-th sleep
        lasts. */
    method AcquireWithTimeout(p: nat, late: nat -> nat) returns (got: bool)
      requires Valid() && Mine(p) && p in state.procs && state.procs[p].Trying?
      modifies this
      ensures Valid() && old(history) <= history && p in state.procs
      ensures var call := old(state.procs[p]).call;
              if got then state.procs[p] == SpecGuard(call.spec, SpecLockFile(state.dir, call.spec))
              else IsBusy(state.procs[p], call) && state.clock >= call.deadline
    {
      hide Run, Step, SpecLockFile, Mine;
      var call := state.procs[p].call;
      var k := 0;
      while true
        invariant Valid() && old(history) <= history && p in state.procs
        invariant IsTrying(state.procs[p], call)
        decreases call.deadline - state.clock
      {
        got := TryLock(p);
        if got {
          return;
        }
        var past := PastDeadline(p);
        if past {
          return;
        }
        Sleep(p, POLL_INTERVAL + late(k));
        k := k + 1;
      }
    }

    /** `acquire_spec_with_timeout`; `opens` is whether the lock file can be opened. */
    method AcquireSpecWithTimeout(p: nat, spec: string, timeout: nat, late: nat -> nat, opens: bool)
      returns (r: Outcome)
      requires Valid() && Mine(p) && p !in state.procs
      modifies this
      ensures Valid() && old(history) <= history
      ensures r == ReservedError <==> spec == RESERVED
      ensures r == OpenError <==> spec != RESERVED && !opens
      ensures r == ReservedError || r == OpenError ==> state.holder == old(state.holder)
      ensures r == Acquired ==> Live(state, p, SpecGuard(spec, SpecLockFile(state.dir, spec)))
      ensures r == SpecBusyError ==>
        && p in state.procs && state.clock >= old(state.clock) + timeout
        && IsBusy(state.procs[p], FirstCall(old(state), spec, timeout))
        && HeldBetween(history, old(|history|) - 1, |history| - 1, SpecLockFile(state.dir, spec))
      ensures !r.WorkspaceBusyError?
    {
      hide Run, Step, SpecLockFile, Mine, HeldBetween;
      LastStep(history);
      StartsSpec(state, p, spec, timeout);
      if spec == RESERVED {
        Do(StartSpec(p, spec, timeout));
        return ReservedError;
      }
      if !opens {
        return OpenError;
      }
      Do(StartSpec(p, spec, timeout));
      var got := AcquireWithTimeout(p, late);
      if got {
        return Acquired;
      }
      WasRefused(history, |history| - 1, p);
      return SpecBusyError;
    }

    /** `acquire_spec`: five seconds. */
    method AcquireSpec(p: nat, spec: string, late: nat -> nat, opens: bool) returns (r: Outcome)
      requires Valid() && Mine(p) && p !in state.procs
      modifies this
      ensures Valid() && old(history) <= history
      ensures r == ReservedError <==> spec == RESERVED
      ensures r == OpenError <==> spec != RESERVED && !opens
      ensures r == ReservedError || r == OpenError ==> state.holder == old(state.holder)
      ensures r == Acquired ==> Live(state, p, SpecGuard(spec, SpecLockFile(state.dir, spec)))
      ensures r == SpecBusyError ==>
        && p in state.procs && state.clock >= old(state.clock) + 5000
        && IsBusy(state.procs[p], FirstCall(old(state), spec, 5000))
        && HeldBetween(history, old(|history|) - 1, |history| - 1, SpecLockFile(state.dir, spec))
      ensures !r.WorkspaceBusyError?
    {
      r := AcquireSpecWithTimeout(p, spec, DEFAULT_SPEC_TIMEOUT, late, opens);
    }

    /** `find_held_spec_lock` over a directory listing; `opens` is which files can be
        opened. The probe of a free lock is let go before the next entry. */
    method FindHeldSpecLock(p: nat, entries: seq<string>, opens: string -> bool) returns (r: Scan)
      requires Valid() && Mine(p) && p in state.procs
      requires forall name :: name in entries ==> '/' !in name
      requires state.procs[p].Scanning? && IsScan(state.procs[p], Listed(state.dir, entries), 0, state.procs[p].since)
      modifies this
      ensures Valid() && old(history) <= history && state.dir == old(state.dir)
      ensures r == AllFree ==>
        && p in state.procs && AllOpen(entries, opens)
        && IsScan(state.procs[p], Listed(state.dir, entries), |Listed(state.dir, entries)|, old(state.procs[p].since))
      ensures r.HeldBy? ==>
        && r.name != RESERVED && p in state.procs
        && (exists e :: 0 <= e < |entries| && FileStem(entries[e]) == r.name && AllOpen(entries[..e + 1], opens))
        && IsWorkspaceBusy(state.procs[p], SpecLockFile(state.dir, r.name), old(state.procs[p].since))
      ensures r == Unreadable ==> p !in state.procs && exists name :: name in entries && Probed(name) && !opens(name)
    {
      hide Run, Step, SpecLockFile, Mine, Listed, Probed;
      ghost var listed, since := Listed(state.dir, entries), state.procs[p].since;
      assert entries[..0] == [] && |Listed(state.dir, [])| == 0 by { NothingListed(state.dir); }
      for e := 0 to |entries|
        invariant Valid() && old(history) <= history && state.dir == old(state.dir) && p in state.procs
        invariant IsScan(state.procs[p], listed, |Listed(state.dir, entries[..e])|, since)
        invariant AllOpen(entries[..e], opens)
      {
        assert entries[..e + 1] == entries[..e] + [entries[e]];
        ListedAt(state.dir, entries, e);
        if !Probed(entries[e]) {
          continue;
        }
        if !opens(entries[e]) {
          Ends(state, p);
          Do(Finish(p));
          return Unreadable;
        }
        Others(p);
        ProbesOne(state, p);
        Do(Probe(p));
        if state.procs[p].WorkspaceBusy? {
          ReportedLabel(state.dir, entries[e]);
          return HeldBy(FileStem(entries[e]));
        }
        Others(p);
        LetsGo(state, p);
        Do(Release(p));
      }
      assert entries[..|entries|] == entries;
      return AllFree;
    }

    /** `acquire_workspace`; `entries` is what the directory read gives, and `opens` which
        lock files can be opened. */
    method AcquireWorkspace(p: nat, entries: seq<string>, opens: string -> bool) returns (r: Outcome)
      requires Valid() && Mine(p) && p !in state.procs && IsListing(state, entries)
      requires forall name :: name in entries ==> '/' !in name
      modifies this
      ensures Valid() && old(history) <= history && state.dir == old(state.dir)
      ensures r.Acquired? || r.WorkspaceBusyError? || r.OpenError?
      ensures r == Acquired || r == WorkspaceBusyError(RESERVED) ==>
        AllOpen(entries, opens) && opens("workspace.lock")
      ensures r == Acquired ==>
        && p in state.procs && state.procs[p].WorkspaceGuard? && old(|history|) < |history|
        && forall f :: IsListed(old(state), f) ==> QuietBetween(history, old(|history|) - 1, |history| - 1, f)
      ensures r.WorkspaceBusyError? ==>
        && p in state.procs && state.procs[p].WorkspaceBusy?
        && state.procs[p].file == SpecLockFile(state.dir, r.name)
        && HeldBetween(history, old(|history|) - 1, |history| - 1, SpecLockFile(state.dir, r.name))
      ensures r == OpenError ==>
        && p !in state.procs
        && ((exists name :: name in entries && Probed(name) && !opens(name)) || !opens(RESERVED + ".lock"))
    {
      hide Run, Step, SpecLockFile, WorkspaceLockFile, Mine, Listed, IsListed, Probed, IsListing, ListsAll,
        QuietBetween, HeldBetween;
      LastStep(history);
      ghost var n: nat := |history| - 1;
      ListingIsComplete(state, entries);
      StartsScan(state, p, Listed(state.dir, entries));
      Do(StartWorkspace(p, Listed(state.dir, entries)));
      var scan := FindHeldSpecLock(p, entries, opens);
      match scan
      case Unreadable => return OpenError;
      case HeldBy(name) =>
        WasHeld(history, |history| - 1, p);
        return WorkspaceBusyError(name);
      case AllFree =>
        assert RESERVED + ".lock" == "workspace.lock";
        if !opens(RESERVED + ".lock") {
          Ends(state, p);
          Do(Finish(p));
          return OpenError;
        }
        Others(p);
        TakesWorkspace(state, p);
        Do(TakeWorkspace(p));
        if state.procs[p].WorkspaceGuard? {
          WasQuiet(history, n, |history| - 1, p);
          return Acquired;
        }
        SameFile(state.dir);
        WasHeld(history, |history| - 1, p);
        return WorkspaceBusyError(RESERVED);
    }

    /** Dropping a guard closes its file, and that lets go of the lock. */
    method Drop(p: nat)
      requires Valid() && p in state.procs
      modifies this
      ensures Valid() && old(history) <= history && p !in state.procs
      ensures forall f :: f in state.holder <==> f in old(state.holder) && old(state.holder)[f] != p
      ensures forall q :: q in old(state.procs) && q != p ==> Live(state, q, old(state.procs[q]))
    {
      hide Run;
      Do(Finish(p));
    }
  }

  /** Every lock file among these that is probed can be opened. */
  predicate AllOpen(entries: seq<string>, opens: string -> bool) {
    forall i :: 0 <= i < |entries| && Probed(entries[i]) ==> opens(entries[i])
  }

  /** Whether an action is a step of `p`. */
  predicate Acts(a: Action, p: nat) {
    !a.Tick? && a.p == p
  }

  /** Time may have passed and others may have acted, but `p` is where it was. */
  predicate Same(s: State, t: State, p: nat) {
    && s.clock <= t.clock && s.dir == t.dir && (p in s.procs <==> p in t.procs)
    && (p in s.procs ==> s.procs[p] == t.procs[p])
  }

  /** A timed call as it begins. */
  function FirstCall(s: State, spec: string, timeout: nat): Timed {
    Timed(spec, SpecLockFile(s.dir, spec), s.clock, s.clock + timeout, s.step, [])
  }

  /** The same timed call, at another time. */
  predicate SameCall(a: Timed, b: Timed) {
    a == b.(refused := a.refused)
  }

  predicate IsTrying(q: Proc, call: Timed) {
    q.Trying? && SameCall(q.call, call)
  }

  predicate IsRefused(q: Proc, call: Timed) {
    q.Refused? && SameCall(q.call, call)
  }

  predicate IsSleeping(q: Proc, call: Timed, wake: nat) {
    q.Sleeping? && SameCall(q.call, call) && q.wake == wake
  }

  /** Busy, after at least one try and not before the deadline. */
  predicate IsBusy(q: Proc, call: Timed) {
    q.SpecBusy? && SameCall(q.call, call) && q.call.refused != [] && q.at >= call.deadline
  }

  lemma OthersLeaveAlone(s: State, a: Action, p: nat)
    requires Step(s, a).Some? && !Acts(a, p)
    ensures Same(s, Step(s, a).value, p)
  {
    hide Enabled, LetGo;
  }

  lemma StartsSpec(s: State, p: nat, spec: string, timeout: nat)
    requires p !in s.procs
    ensures var t := Step(s, StartSpec(p, spec, timeout));
            && t.Some? && p in t.value.procs && t.value.clock == s.clock && t.value.holder == s.holder
            && (spec != RESERVED ==> t.value.procs[p] == Trying(FirstCall(s, spec, timeout)))
  {
    hide SpecLockFile;
  }

  lemma TriesOnce(s: State, p: nat)
    requires p in s.procs && s.procs[p].Trying?
    ensures var t, call := Step(s, Try(p)), s.procs[p].call;
            && t.Some? && p in t.value.procs && t.value.clock == s.clock
            && (t.value.procs[p] == SpecGuard(call.spec, call.file) || IsRefused(t.value.procs[p], call))
  {
  }

  lemma ChecksDeadline(s: State, p: nat)
    requires p in s.procs && s.procs[p].Refused?
    ensures var t, call := Step(s, CheckDeadline(p)), s.procs[p].call;
            && t.Some? && p in t.value.procs && t.value.clock == s.clock
            && (s.clock >= call.deadline ==> t.value.procs[p] == SpecBusy(call, s.clock))
            && (s.clock < call.deadline ==> t.value.procs[p] == Sleeping(call, s.clock + POLL_INTERVAL))
  {
  }

  lemma SleepsOn(s: State, p: nat, ms: nat)
    requires p in s.procs && s.procs[p].Sleeping? && s.clock + ms >= s.procs[p].wake
    ensures var t1 := Step(s, Tick(ms));
            && t1.Some?
            && var t2 := Step(t1.value, Wake(p));
            && t2.Some? && p in t2.value.procs && t2.value.clock == s.clock + ms
            && t2.value.procs[p] == Trying(s.procs[p].call)
  {
  }

  lemma GuardFile(h: seq<State>, i: nat, p: nat)
    requires Run(h) && i < |h| && p in h[i].procs
    ensures h[i].procs[p].SpecGuard? ==> h[i].procs[p].file == SpecLockFile(h[i].dir, h[i].procs[p].spec)
    ensures h[i].procs[p].SpecBusy? ==>
      h[i].procs[p].call.refused != [] && h[i].procs[p].call.file == SpecLockFile(h[i].dir, h[i].procs[p].call.spec)
  {
    hide Step, TableAgrees;
    InvOfRun(h, i);
    assert ProcOk(h[i].dir, h[i].clock, h[i].procs[p]);
  }

  // ------------------------------------------------------------------ workspace calls

  datatype Scan = AllFree | HeldBy(name: string) | Unreadable

  predicate IsScan(q: Proc, listed: seq<File>, next: nat, since: nat) {
    q.Scanning? && q.listed == listed && q.next == next && q.since == since
  }

  predicate IsProbe(q: Proc, listed: seq<File>, next: nat, since: nat) {
    q.Probing? && q.listed == listed && q.next == next && q.since == since
  }

  predicate IsWorkspaceBusy(q: Proc, file: File, since: nat) {
    q.WorkspaceBusy? && q.file == file && q.since == since
  }

  /** At some instant of `[from, to)` no guard on `f` was live. */
  ghost predicate QuietBetween(h: seq<State>, from: nat, to: nat, f: File) {
    exists k :: from <= k < to && k < |h| && Quiet(h[k], f)
  }

  ghost predicate HeldBetween(h: seq<State>, from: nat, to: nat, f: File) {
    exists k :: from <= k < to && k < |h| && f in h[k].holder
  }

  lemma NothingListed(dir: File)
    ensures Listed(dir, []) == []
  {
  }

  lemma ListedStep(dir: File, entries: seq<string>, e: nat)
    requires e < |entries|
    ensures Listed(dir, entries[..e + 1]) ==
            Listed(dir, entries[..e]) + (if Probed(entries[e]) then [dir + [entries[e]]] else [])
  {
    hide Probed;
    assert entries[..e + 1][..e] == entries[..e];
  }

  lemma {:induction false} ListedGrows(dir: File, entries: seq<string>, e: nat)
    requires e <= |entries|
    ensures Listed(dir, entries[..e]) <= Listed(dir, entries)
    decreases |entries| - e
  {
    hide Probed, Listed;
    if e == |entries| {
      assert entries[..e] == entries;
    } else {
      ListedStep(dir, entries, e);
      ListedGrows(dir, entries, e + 1);
    }
  }

  /** The entry the filter keeps is the next file of the list. */
  lemma ListedAt(dir: File, entries: seq<string>, e: nat)
    requires e < |entries|
    ensures var done := Listed(dir, entries[..e]);
            && Listed(dir, entries[..e + 1]) == (if Probed(entries[e]) then done + [dir + [entries[e]]] else done)
            && (Probed(entries[e]) ==>
                  |done| < |Listed(dir, entries)| && Listed(dir, entries)[|done|] == dir + [entries[e]])
  {
    hide Probed, Listed;
    ListedStep(dir, entries, e);
    ListedGrows(dir, entries, e + 1);
    assert Listed(dir, entries[..e]) + [] == Listed(dir, entries[..e]);
  }

  lemma Ends(s: State, p: nat)
    requires p in s.procs
    ensures var t := Step(s, Finish(p)); t.Some? && p !in t.value.procs && t.value.dir == s.dir
  {
  }

  lemma StartsScan(s: State, p: nat, listed: seq<File>)
    requires p !in s.procs && ListsAll(s, listed)
    ensures var t := Step(s, StartWorkspace(p, listed));
            && t.Some? && t.value.dir == s.dir && p in t.value.procs && IsScan(t.value.procs[p], listed, 0, s.step)
  {
  }

  lemma ProbesOne(s: State, p: nat)
    requires p in s.procs && s.procs[p].Scanning? && s.procs[p].next < |s.procs[p].listed|
    ensures var t, q := Step(s, Probe(p)), s.procs[p];
            && t.Some? && t.value.dir == s.dir && p in t.value.procs
            && (IsProbe(t.value.procs[p], q.listed, q.next, q.since)
                || IsWorkspaceBusy(t.value.procs[p], q.listed[q.next], q.since))
  {
  }

  lemma LetsGo(s: State, p: nat)
    requires p in s.procs && s.procs[p].Probing?
    ensures var t, q := Step(s, Release(p)), s.procs[p];
            && t.Some? && t.value.dir == s.dir && p in t.value.procs
            && IsScan(t.value.procs[p], q.listed, q.next + 1, q.since)
  {
  }

  lemma TakesWorkspace(s: State, p: nat)
    requires p in s.procs && s.procs[p].Scanning? && s.procs[p].next == |s.procs[p].listed|
    ensures var t, q := Step(s, TakeWorkspace(p)), s.procs[p];
            && t.Some? && t.value.dir == s.dir && p in t.value.procs
            && ((t.value.procs[p].WorkspaceGuard? && t.value.procs[p].since == q.since)
                || IsWorkspaceBusy(t.value.procs[p], WorkspaceLockFile(s.dir), q.since))
  {
    hide WorkspaceLockFile;
  }

  lemma LastStep(h: seq<State>)
    requires Run(h)
    ensures |h| > 0 && h[|h| - 1].step == |h| - 1
  {
    hide Inv;
    InvOfRun(h, |h| - 1);
  }

  lemma WasQuiet(h: seq<State>, since: nat, i: nat, p: nat)
    requires Run(h) && i < |h| && p in h[i].procs && h[i].procs[p].WorkspaceGuard?
    requires h[i].procs[p].since == since
    ensures since < i && forall f :: IsListed(h[since], f) ==> QuietBetween(h, since, i, f)
  {
    hide Run, Quiet, IsListed;
    QuietInstants(h, i, p);
  }

  /** A busy call found its file held at an instant of the call. */
  lemma WasRefused(h: seq<State>, i: nat, p: nat)
    requires Run(h) && i < |h| && p in h[i].procs && h[i].procs[p].SpecBusy?
    ensures HeldBetween(h, h[i].procs[p].call.since, i, SpecLockFile(h[i].dir, h[i].procs[p].call.spec))
  {
    hide Run, SpecLockFile;
    WitnessesOfRun(h, i, p);
    GuardFile(h, i, p);
    var call := h[i].procs[p].call;
    assert call.file in h[call.refused[0]].holder;
  }

  lemma WasHeld(h: seq<State>, i: nat, p: nat)
    requires Run(h) && i < |h| && p in h[i].procs && h[i].procs[p].WorkspaceBusy?
    ensures HeldBetween(h, h[i].procs[p].since, i, h[i].procs[p].file)
  {
    hide Run;
    WitnessesOfRun(h, i, p);
  }
}
