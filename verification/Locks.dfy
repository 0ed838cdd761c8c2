/** The lock manager as interleaved steps of any number of calls over `flock` state:
    timed spec acquisitions, the workspace probe, guards, and their ends. */
module Locks {
  import opened Prelude
  import opened LockPaths

  const POLL_INTERVAL := 50

  /** A timed acquisition: when it began, by the clock and among the states of the run, and
      the states at which it was refused. */
  datatype Timed = Timed(spec: string, file: File, start: nat, deadline: nat, since: nat, refused: seq<nat>)

  /** One call of the manager, or the guard it returned. */
  datatype Proc =
    | Trying(call: Timed)
    | Refused(call: Timed)
    | Sleeping(call: Timed, wake: nat)
    | SpecGuard(spec: string, file: File)
    | SpecBusy(call: Timed, at: nat)
    | ReservedLabel
    | Scanning(listed: seq<File>, next: nat, since: nat, seen: map<File, nat>)
    | Probing(listed: seq<File>, next: nat, since: nat, seen: map<File, nat>)
    | WorkspaceGuard(listed: seq<File>, since: nat, seen: map<File, nat>)
    | WorkspaceBusy(file: File, since: nat, at: nat)

  /** `step` numbers the states of a run; `files` are the existing lock files. */
  datatype State = State(dir: File, step: nat, clock: nat, files: set<File>,
                         holder: map<File, nat>, procs: map<nat, Proc>)

  datatype Action =
    | StartSpec(p: nat, spec: string, timeout: nat)
    | Try(p: nat)
    | CheckDeadline(p: nat)
    | Wake(p: nat)
    | StartWorkspace(p: nat, listed: seq<File>)
    | Probe(p: nat)
    | Release(p: nat)
    | TakeWorkspace(p: nat)
    /** A guard is dropped, a call returns or fails, its process exits or crashes. */
    | Finish(p: nat)
    | Tick(ms: nat)

  /** The files the directory scan probes. */
  predicate IsListed(s: State, f: File) {
    f in s.files && |f| == |s.dir| + 1 && f[..|s.dir|] == s.dir && Probed(f[|s.dir|])
  }

  predicate ListsAll(s: State, listed: seq<File>) {
    && (forall i :: 0 <= i < |listed| ==> IsListed(s, listed[i]))
    && (forall f :: f in s.files && IsListed(s, f) ==> f in listed)
  }

  /** What `p` becomes by an action, if the action is possible; `take` and `open` are the
      files it locks and creates. */
  datatype Effect = Effect(proc: Proc, take: Option<File>, open: Option<File>)

  function Enabled(s: State, a: Action): Option<Effect>
    requires !a.Finish? && !a.Tick?
  {
    if a.StartSpec? then
      var file := SpecLockFile(s.dir, a.spec);
      if a.p in s.procs then None
      else if a.spec == RESERVED then Some(Effect(ReservedLabel, None, None))
      else
        var call := Timed(a.spec, file, s.clock, s.clock + a.timeout, s.step, []);
        Some(Effect(Trying(call), None, Some(file)))
    else if a.StartWorkspace? then
      if a.p in s.procs || !ListsAll(s, a.listed) then None
      else Some(Effect(Scanning(a.listed, 0, s.step, map[]), None, None))
    else if a.p !in s.procs then None
    else
      match (a, s.procs[a.p])
      case (Try(_), Trying(call)) =>
        if call.file in s.holder then
          Some(Effect(Refused(call.(refused := call.refused + [s.step])), None, None))
        else Some(Effect(SpecGuard(call.spec, call.file), Some(call.file), None))
      case (CheckDeadline(_), Refused(call)) =>
        if s.clock >= call.deadline then Some(Effect(SpecBusy(call, s.clock), None, None))
        else Some(Effect(Sleeping(call, s.clock + POLL_INTERVAL), None, None))
      case (Wake(_), Sleeping(call, wake)) =>
        if s.clock < wake then None else Some(Effect(Trying(call), None, None))
      case (Probe(_), Scanning(listed, next, since, seen)) =>
        if next >= |listed| then None
        else if listed[next] in s.holder then
          Some(Effect(WorkspaceBusy(listed[next], since, s.step), None, Some(listed[next])))
        else
          var seen' := seen[listed[next] := s.step];
          Some(Effect(Probing(listed, next, since, seen'), Some(listed[next]), Some(listed[next])))
      case (TakeWorkspace(_), Scanning(listed, next, since, seen)) =>
        var file := WorkspaceLockFile(s.dir);
        if next < |listed| then None
        else if file in s.holder then Some(Effect(WorkspaceBusy(file, since, s.step), None, Some(file)))
        else Some(Effect(WorkspaceGuard(listed, since, seen), Some(file), Some(file)))
      case _ => None
  }

  /** Everything `p` holds is let go. */
  function LetGo(holder: map<File, nat>, p: nat): map<File, nat> {
    map f | f in holder && holder[f] != p :: holder[f]
  }

  function Step(s: State, a: Action): Option<State> {
    match a
    case Tick(ms) => Some(s.(clock := s.clock + ms, step := s.step + 1))
    case Finish(p) =>
      if p !in s.procs then None
      else Some(s.(procs := s.procs - {p}, holder := LetGo(s.holder, p), step := s.step + 1))
    case Release(p) =>
      if p !in s.procs || !s.procs[p].Probing? then None
      else
        var q := s.procs[p];
        Some(s.(procs := s.procs[p := Scanning(q.listed, q.next + 1, q.since, q.seen)],
                holder := LetGo(s.holder, p), step := s.step + 1))
    case _ =>
      match Enabled(s, a)
      case None => None
      case Some(e) =>
        Some(State(s.dir, s.step + 1, s.clock,
                   if e.open.Some? then s.files + {e.open.value} else s.files,
                   if e.take.Some? then s.holder[e.take.value := a.p] else s.holder,
                   s.procs[a.p := e.proc]))
  }

  // ------------------------------------------------------------------- invariants

  /** The file a call holds an `flock` on. */
  function Held(dir: File, q: Proc): Option<File> {
    match q
    case SpecGuard(_, file) => Some(file)
    case Probing(listed, next, _, _) => if next < |listed| then Some(listed[next]) else None
    case WorkspaceGuard(_, _, _) => Some(WorkspaceLockFile(dir))
    case _ => None
  }

  /** The kernel's table and the calls agree: nothing is held that no call accounts for,
      and nothing a call accounts for is held by another. */
  ghost predicate TableAgrees(dir: File, holder: map<File, nat>, procs: map<nat, Proc>) {
    && (forall p, f :: p in procs && Held(dir, procs[p]) == Some(f) ==> f in holder && holder[f] == p)
    && (forall f :: f in holder ==> holder[f] in procs && Held(dir, procs[holder[f]]) == Some(f))
  }

  predicate TimedOk(dir: File, clock: nat, call: Timed) {
    && call.file == SpecLockFile(dir, call.spec) && call.spec != RESERVED
    && call.start <= call.deadline && call.start <= clock
  }

  /** What each kind of call knows about itself. */
  ghost predicate ProcOk(dir: File, clock: nat, q: Proc) {
    match q
    case Trying(call) =>
      var tries := |call.refused|;
      && TimedOk(dir, clock, call)
      && POLL_INTERVAL * tries <= clock - call.start
      && (tries > 0 ==> POLL_INTERVAL * (tries - 1) < call.deadline - call.start)
    case Refused(call) =>
      var tries := |call.refused|;
      && TimedOk(dir, clock, call) && tries > 0
      && POLL_INTERVAL * (tries - 1) <= clock - call.start
      && (tries > 1 ==> POLL_INTERVAL * (tries - 2) < call.deadline - call.start)
    case Sleeping(call, wake) =>
      var tries := |call.refused|;
      && TimedOk(dir, clock, call) && tries > 0
      && POLL_INTERVAL * tries <= wake - call.start
      && POLL_INTERVAL * (tries - 1) < call.deadline - call.start
    case SpecGuard(spec, file) => file == SpecLockFile(dir, spec) && spec != RESERVED
    case SpecBusy(call, at) =>
      var tries := |call.refused|;
      && TimedOk(dir, clock, call) && tries > 0 && call.deadline <= at <= clock
      && (tries > 1 ==> POLL_INTERVAL * (tries - 2) < call.deadline - call.start)
    case ReservedLabel => true
    case Scanning(listed, next, _, seen) => next <= |listed| && seen.Keys == Elements(listed[..next])
    case Probing(listed, next, _, seen) => next < |listed| && seen.Keys == Elements(listed[..next + 1])
    case WorkspaceGuard(listed, _, seen) => seen.Keys == Elements(listed)
    case WorkspaceBusy(_, _, _) => true
  }

  ghost predicate Inv(s: State) {
    && TableAgrees(s.dir, s.holder, s.procs)
    && forall p :: p in s.procs ==> ProcOk(s.dir, s.clock, s.procs[p])
  }

  lemma DropKeepsTable(dir: File, holder: map<File, nat>, procs: map<nat, Proc>, p: nat)
    requires TableAgrees(dir, holder, procs)
    ensures TableAgrees(dir, LetGo(holder, p), procs - {p})
  {
    hide Held;
  }

  lemma TakeKeepsTable(dir: File, holder: map<File, nat>, procs: map<nat, Proc>, p: nat, q: Proc)
    requires TableAgrees(dir, holder, procs)
    requires p in procs ==> Held(dir, procs[p]) == None
    requires Held(dir, q).Some? ==> Held(dir, q).value !in holder
    ensures TableAgrees(dir, if Held(dir, q).Some? then holder[Held(dir, q).value := p] else holder, procs[p := q])
  {
    hide Held;
  }

  /** A call locks a file only from a state in which it holds none, and the file is free. */
  lemma TakesFreeFile(s: State, a: Action)
    requires !a.Finish? && !a.Tick? && Enabled(s, a).Some?
    ensures var e := Enabled(s, a).value;
            && Held(s.dir, e.proc) == e.take
            && (e.take.Some? ==> e.take.value !in s.holder)
            && (a.p in s.procs ==> Held(s.dir, s.procs[a.p]) == None)
  {
    hide SpecLockFile, WorkspaceLockFile, ListsAll;
  }

  lemma TableKept(s: State, a: Action)
    requires TableAgrees(s.dir, s.holder, s.procs) && Step(s, a).Some?
    ensures TableAgrees(s.dir, Step(s, a).value.holder, Step(s, a).value.procs)
  {
    if a.Finish? {
      hide Enabled, TableAgrees, LetGo, Held;
      DropKeepsTable(s.dir, s.holder, s.procs, a.p);
    } else if a.Release? {
      hide Enabled, TableAgrees, LetGo;
      DropKeepsTable(s.dir, s.holder, s.procs, a.p);
      var q := s.procs[a.p];
      var q' := Scanning(q.listed, q.next + 1, q.since, q.seen);
      TakeKeepsTable(s.dir, LetGo(s.holder, a.p), s.procs - {a.p}, a.p, q');
      assert (s.procs - {a.p})[a.p := q'] == s.procs[a.p := q'];
    } else if !a.Tick? {
      hide Enabled, TableAgrees, LetGo, Held;
      TakesFreeFile(s, a);
      TakeKeepsTable(s.dir, s.holder, s.procs, a.p, Enabled(s, a).value.proc);
    }
  }

  lemma ProcKept(s: State, a: Action, p: nat)
    requires Step(s, a).Some? && p in Step(s, a).value.procs
    requires p in s.procs ==> ProcOk(s.dir, s.clock, s.procs[p])
    ensures ProcOk(s.dir, Step(s, a).value.clock, Step(s, a).value.procs[p])
  {
    hide SpecLockFile, WorkspaceLockFile, ListsAll;
    if a.Probe? && a.p == p {
      var q := s.procs[p];
      assert q.listed[..q.next + 1] == q.listed[..q.next] + [q.listed[q.next]];
    } else if a.TakeWorkspace? && a.p == p {
      var q := s.procs[p];
      assert q.listed[..q.next] == q.listed;
    } else if a.StartWorkspace? && a.p == p {
      assert a.listed[..0] == [];
    }
  }

  lemma SameDir(s: State, a: Action)
    requires Step(s, a).Some?
    ensures Step(s, a).value.dir == s.dir && Step(s, a).value.step == s.step + 1
    ensures Step(s, a).value.clock >= s.clock
  {
    hide Enabled, LetGo;
  }

  /** Every step of every call keeps the invariant. */
  lemma InvKept(s: State, a: Action)
    requires Inv(s) && Step(s, a).Some?
    ensures Inv(Step(s, a).value)
  {
    hide Step, TableAgrees, ProcOk;
    TableKept(s, a);
    SameDir(s, a);
    forall p | p in Step(s, a).value.procs
      ensures ProcOk(s.dir, Step(s, a).value.clock, Step(s, a).value.procs[p])
    {
      ProcKept(s, a, p);
    }
  }

  // ------------------------------------------------------------------------- runs

  /** Nobody has called yet; lock files of the past may lie around. */
  predicate Initial(s: State) {
    s.step == 0 && s.holder == map[] && s.procs == map[]
  }

  ghost predicate Follows(s: State, t: State) {
    exists a :: Step(s, a) == Some(t)
  }

  ghost predicate Run(h: seq<State>) {
    && |h| > 0 && Initial(h[0])
    && forall i :: 0 < i < |h| ==> Follows(h[i - 1], h[i])
  }

  lemma {:induction false} InvOfRun(h: seq<State>, i: nat)
    requires Run(h) && i < |h|
    ensures Inv(h[i]) && h[i].step == i && h[i].dir == h[0].dir
  {
    hide Step, TableAgrees, ProcOk;
    if i == 0 {
      InitialInv(h[0]);
    } else {
      InvOfRun(h, i - 1);
      assert Follows(h[i - 1], h[i]);
      var a :| Step(h[i - 1], a) == Some(h[i]);
      InvKept(h[i - 1], a);
      SameDir(h[i - 1], a);
    }
  }

  lemma InitialInv(s: State)
    requires Initial(s)
    ensures Inv(s)
  {
  }

  ghost predicate Live(s: State, p: nat, q: Proc) {
    p in s.procs && s.procs[p] == q
  }

  /** At any instant of any run two spec guards on one file, in particular two of one
      label, are the same guard, and so are two workspace guards. */
  lemma AtMostOneGuard(h: seq<State>, i: nat, p: nat, q: nat)
    requires Run(h) && i < |h| && p in h[i].procs && q in h[i].procs
    ensures var a, b := h[i].procs[p], h[i].procs[q];
            && (a.SpecGuard? && b.SpecGuard? && (a.file == b.file || a.spec == b.spec) ==> p == q)
            && (a.WorkspaceGuard? && b.WorkspaceGuard? ==> p == q)
  {
    hide SpecLockFile, WorkspaceLockFile, Step;
    InvOfRun(h, i);
    assert ProcOk(h[i].dir, h[i].clock, h[i].procs[p]) && ProcOk(h[i].dir, h[i].clock, h[i].procs[q]);
    assert Held(h[i].dir, h[i].procs[p]).Some? ==> h[i].holder[Held(h[i].dir, h[i].procs[p]).value] == p;
    assert Held(h[i].dir, h[i].procs[q]).Some? ==> h[i].holder[Held(h[i].dir, h[i].procs[q]).value] == q;
  }

  /** No live spec guard is of the label `workspace`, and beside a live workspace guard
      none is of a label that leads to the same file in another spelling. */
  lemma GuardsBesideWorkspace(h: seq<State>, i: nat, p: nat, q: nat)
    requires Run(h) && i < |h| && p in h[i].procs && q in h[i].procs
    requires h[i].procs[p].SpecGuard?
    ensures h[i].procs[p].spec != RESERVED
    ensures h[i].procs[q].WorkspaceGuard?
      ==> !(BaseName(h[i].procs[p].spec) == RESERVED && Resolve(h[i].dir, DirPart(h[i].procs[p].spec)) == h[i].dir)
  {
    hide SpecLockFile, WorkspaceLockFile, Step, Resolve, BaseName, DirPart;
    InvOfRun(h, i);
    assert ProcOk(h[i].dir, h[i].clock, h[i].procs[p]);
    AliasesWorkspaceIff(h[i].dir, h[i].procs[p].spec);
    assert Held(h[i].dir, h[i].procs[p]).Some? ==> h[i].holder[Held(h[i].dir, h[i].procs[p]).value] == p;
    assert Held(h[i].dir, h[i].procs[q]).Some? ==> h[i].holder[Held(h[i].dir, h[i].procs[q]).value] == q;
  }

  /** Whatever is locked is accounted for by a live guard, or by a probe that is about to
      let it go: refused, sleeping and finished calls leave nothing locked. */
  lemma OnlyGuardsAndProbesHold(h: seq<State>, i: nat, f: File)
    requires Run(h) && i < |h| && f in h[i].holder
    ensures h[i].holder[f] in h[i].procs
    ensures var q := h[i].procs[h[i].holder[f]];
            || (q.SpecGuard? && f == SpecLockFile(h[i].dir, q.spec))
            || (q.WorkspaceGuard? && f == WorkspaceLockFile(h[i].dir))
            || (q.Probing? && q.next < |q.listed| && f == q.listed[q.next])
  {
    hide SpecLockFile, WorkspaceLockFile, Step;
    InvOfRun(h, i);
    assert ProcOk(h[i].dir, h[i].clock, h[i].procs[h[i].holder[f]]);
  }

  /** A timed acquisition reports busy only at or after its deadline and after a try; in
      every state it has tried at most once per interval, so it ends. */
  lemma TriesBounded(h: seq<State>, i: nat, p: nat)
    requires Run(h) && i < |h| && p in h[i].procs
    ensures var q := h[i].procs[p];
            && (q.SpecBusy? ==> |q.call.refused| > 0 && q.call.start <= q.call.deadline <= q.at <= h[i].clock)
            && (q.Trying? || q.Refused? || q.Sleeping? || q.SpecBusy?
                ==> && q.call.start <= q.call.deadline
                    && |q.call.refused| <= (q.call.deadline - q.call.start) / 50 + 2)
  {
    hide SpecLockFile, WorkspaceLockFile, Step, TableAgrees;
    InvOfRun(h, i);
    assert ProcOk(h[i].dir, h[i].clock, h[i].procs[p]);
  }

  /** A call that has not ended can always take its next step, if need be once the clock
      has moved on. */
  lemma NeverStuck(h: seq<State>, i: nat, p: nat)
    requires Run(h) && i < |h| && p in h[i].procs
    ensures var s, q := h[i], h[i].procs[p];
            && (q.Trying? ==> Step(s, Try(p)).Some?)
            && (q.Refused? ==> Step(s, CheckDeadline(p)).Some?)
            && (q.Sleeping? ==> forall ms :: s.clock + ms >= q.wake ==> Step(Step(s, Tick(ms)).value, Wake(p)).Some?)
            && (q.Scanning? ==> Step(s, Probe(p)).Some? || Step(s, TakeWorkspace(p)).Some?)
            && (q.Probing? ==> Step(s, Release(p)).Some?)
  {
    hide SpecLockFile, WorkspaceLockFile, TableAgrees, ListsAll;
    InvOfRun(h, i);
    assert ProcOk(h[i].dir, h[i].clock, h[i].procs[p]);
  }

  // ----------------------------------------------------------- what a probe has seen

  /** The instants a call remembers lie within the call, and at each the file it names was as
      the call saw it. */
  ghost predicate Witnessed(h: seq<State>, i: nat, q: Proc) {
    match q
    case Scanning(listed, _, since, seen) => SeenFree(h, i, listed, since, seen)
    case Probing(listed, _, since, seen) => SeenFree(h, i, listed, since, seen)
    case WorkspaceGuard(listed, since, seen) => SeenFree(h, i, listed, since, seen)
    case WorkspaceBusy(file, since, at) => since <= at < i <= |h| && file in h[at].holder
    case Trying(call) => SeenHeld(h, i, call)
    case Refused(call) => SeenHeld(h, i, call)
    case Sleeping(call, _) => SeenHeld(h, i, call)
    case SpecBusy(call, _) => SeenHeld(h, i, call)
    case _ => true
  }

  /** At every refused try the file was held, at an instant of the call. */
  ghost predicate SeenHeld(h: seq<State>, i: nat, call: Timed) {
    && call.since < i <= |h|
    && forall k :: 0 <= k < |call.refused| ==>
         call.since <= call.refused[k] < i && call.file in h[call.refused[k]].holder
  }

  ghost predicate SeenFree(h: seq<State>, i: nat, listed: seq<File>, since: nat, seen: map<File, nat>) {
    && since < i <= |h| && ListsAll(h[since], listed)
    && forall f :: f in seen ==> since <= seen[f] < i && f !in h[seen[f]].holder
  }

  lemma WitnessedLater(h: seq<State>, i: nat, q: Proc)
    requires Witnessed(h, i, q) && i + 1 <= |h|
    ensures Witnessed(h, i + 1, q)
  {
    hide ListsAll;
  }

  lemma WitnessKept(h: seq<State>, i: nat, a: Action, p: nat)
    requires 0 < i < |h| && h[i - 1].step == i - 1
    requires Step(h[i - 1], a) == Some(h[i]) && p in h[i].procs
    requires p in h[i - 1].procs ==> Witnessed(h, i - 1, h[i - 1].procs[p])
    requires p in h[i - 1].procs ==> ProcOk(h[0].dir, h[i - 1].clock, h[i - 1].procs[p])
    ensures Witnessed(h, i, h[i].procs[p])
  {
    hide SpecLockFile, WorkspaceLockFile, ListsAll;
    if p in h[i - 1].procs {
      WitnessedLater(h, i - 1, h[i - 1].procs[p]);
    }
  }

  lemma {:induction false} WitnessesOfRun(h: seq<State>, i: nat, p: nat)
    requires Run(h) && i < |h| && p in h[i].procs
    ensures Witnessed(h, i, h[i].procs[p])
  {
    hide Step, ProcOk, Witnessed, TableAgrees;
    if i > 0 {
      InvOfRun(h, i - 1);
      assert Follows(h[i - 1], h[i]);
      var a :| Step(h[i - 1], a) == Some(h[i]);
      if p in h[i - 1].procs {
        WitnessesOfRun(h, i - 1, p);
      }
      WitnessKept(h, i, a, p);
    }
  }

  /** No guard on `f` is live. */
  ghost predicate Quiet(s: State, f: File) {
    forall p :: p in s.procs ==> Held(s.dir, s.procs[p]) != Some(f)
  }

  lemma FreeIsQuiet(h: seq<State>, k: nat, f: File)
    requires Run(h) && k < |h| && f !in h[k].holder
    ensures Quiet(h[k], f)
  {
    hide Held, ProcOk, Step;
    InvOfRun(h, k);
  }

  /** A workspace guard was granted only after every listed lock file had an instant, since
      the call began, with no live guard on it. */
  lemma QuietInstants(h: seq<State>, i: nat, p: nat)
    requires Run(h) && i < |h| && p in h[i].procs && h[i].procs[p].WorkspaceGuard?
    ensures var since := h[i].procs[p].since;
            && since < i
            && forall f :: IsListed(h[since], f) ==> exists k :: since <= k < i && Quiet(h[k], f)
  {
    hide Step, TableAgrees, Quiet, IsListed;
    var q := h[i].procs[p];
    WitnessesOfRun(h, i, p);
    InvOfRun(h, i);
    assert ProcOk(h[i].dir, h[i].clock, q);
    forall f | IsListed(h[q.since], f)
      ensures exists k :: q.since <= k < i && Quiet(h[k], f)
    {
      ListedExists(h[q.since], f);
      assert f in q.listed;
      assert f in q.seen;
      FreeIsQuiet(h, q.seen[f], f);
    }
  }

  /** In terms of labels: for every visible label that had ever been locked before the call,
      the call saw an instant with no guard of that label. */
  lemma QuietLabels(h: seq<State>, i: nat, p: nat, name: string)
    requires Run(h) && i < |h| && p in h[i].procs && h[i].procs[p].WorkspaceGuard?
    ensures var since := h[i].procs[p].since;
            && since < i
            && (Visible(h[0].dir, name) && SpecLockFile(h[0].dir, name) in h[since].files
                ==> exists k :: since <= k < i && NoGuardOf(h[k], name))
  {
    hide Step, ProcOk, TableAgrees, Quiet, IsListed, SpecLockFile, NoGuardOf, Visible;
    QuietInstants(h, i, p);
    var since, f := h[i].procs[p].since, SpecLockFile(h[0].dir, name);
    if Visible(h[0].dir, name) && f in h[since].files {
      InvOfRun(h, since);
      ListedIff(h[since], name);
      var k :| since <= k < i && Quiet(h[k], f);
      InvOfRun(h, k);
      QuietMeansNoGuard(h[k], name);
    }
  }

  ghost predicate NoGuardOf(s: State, name: string) {
    forall p :: p in s.procs ==> !(s.procs[p].SpecGuard? && s.procs[p].spec == name)
  }

  /** The scan probes a label's lock file exactly if the label is visible and the file
      exists. */
  lemma ListedIff(s: State, name: string)
    ensures IsListed(s, SpecLockFile(s.dir, name)) <==> SpecLockFile(s.dir, name) in s.files && Visible(s.dir, name)
  {
    hide SpecLockFile, Probed, Visible;
    VisibleIff(s.dir, name);
  }

  lemma QuietMeansNoGuard(s: State, name: string)
    requires Inv(s) && Quiet(s, SpecLockFile(s.dir, name))
    ensures NoGuardOf(s, name)
  {
    hide SpecLockFile, WorkspaceLockFile, TableAgrees;
    forall p | p in s.procs ensures !(s.procs[p].SpecGuard? && s.procs[p].spec == name) {
      assert ProcOk(s.dir, s.clock, s.procs[p]);
    }
  }

  lemma ListedExists(s: State, f: File)
    requires IsListed(s, f)
    ensures f in s.files
  {
  }

  // -------------------------------------------------------- what the code does not give

  /** A spec acquisition never looks at the workspace lock: from any state with a live
      workspace guard, its first try is granted exactly if its own file is free. */
  lemma SpecBesideWorkspace(s: State, w: nat, p: nat, name: string, timeout: nat)
    requires Inv(s) && w in s.procs && s.procs[w].WorkspaceGuard? && p !in s.procs && name != RESERVED
    ensures var s1 := Step(s, StartSpec(p, name, timeout));
            && s1.Some?
            && var s2 := Step(s1.value, Try(p));
            && s2.Some? && Live(s2.value, w, s.procs[w])
            && (Live(s2.value, p, SpecGuard(name, SpecLockFile(s.dir, name)))
                <==> SpecLockFile(s.dir, name) !in s.holder)
  {
    hide SpecLockFile, WorkspaceLockFile, TableAgrees, ProcOk;
  }

  function After(s: State, a: Action): State {
    match Step(s, a) case Some(t) => t case None => s
  }

  /** A label that is not visible goes unseen: where only its guard was ever taken, a
      workspace call finds nothing held and is granted beside it, unless the label leads to
      the workspace lock itself. */
  lemma InvisibleLabelUnseen(s: State, name: string, timeout: nat)
    requires Initial(s) && s.files == {} && name != RESERVED
    requires Resolve(s.dir, DirPart(name)) != s.dir || BaseName(name) == ""
    ensures var guard := SpecGuard(name, SpecLockFile(s.dir, name));
            var t := After(After(s, StartSpec(0, name, timeout)), Try(0));
            && Inv(t) && Live(t, 0, guard)
            && var u := After(After(t, StartWorkspace(1, [])), TakeWorkspace(1));
            && Inv(u) && Live(u, 0, guard) && Live(u, 1, WorkspaceGuard([], 2, map[]))
  {
    AliasesWorkspaceIff(s.dir, name);
    hide SpecLockFile, WorkspaceLockFile, TableAgrees, ProcOk, IsListed, Resolve, BaseName, DirPart;
    InitialInv(s);
    var t := LabelGuard(s, name, timeout);
    InvKept(s, StartSpec(0, name, timeout));
    InvKept(After(s, StartSpec(0, name, timeout)), Try(0));
    InvisibleNotListed(t, name);
    var v := After(t, StartWorkspace(1, []));
    InvKept(t, StartWorkspace(1, []));
    InvKept(v, TakeWorkspace(1));
  }

  lemma LabelGuard(s: State, name: string, timeout: nat) returns (t: State)
    requires Initial(s) && s.files == {} && name != RESERVED
    ensures var file := SpecLockFile(s.dir, name);
            && Step(s, StartSpec(0, name, timeout)).Some?
            && Step(After(s, StartSpec(0, name, timeout)), Try(0)) == Some(t)
            && t == State(s.dir, 2, s.clock, {file}, map[file := 0], map[0 := SpecGuard(name, file)])
  {
    hide SpecLockFile;
    t := After(After(s, StartSpec(0, name, timeout)), Try(0));
  }

  lemma InvisibleNotListed(s: State, name: string)
    requires s.files == {SpecLockFile(s.dir, name)} && !Visible(s.dir, name)
    ensures ListsAll(s, [])
  {
    hide SpecLockFile, Visible, IsListed;
    ListedIff(s, name);
  }

  /** A visible label too, if its guard is taken between its probe and the end of the call:
      the workspace guard is granted beside it. */
  lemma LabelTakenAfterProbe(s: State, name: string, timeout: nat)
    requires Initial(s) && Visible(s.dir, name) && s.files == {SpecLockFile(s.dir, name)}
    ensures var f := SpecLockFile(s.dir, name);
            var s1 := After(s, StartWorkspace(1, [f]));
            var s3 := After(After(s1, Probe(1)), Release(1));
            var s5 := After(After(s3, StartSpec(0, name, timeout)), Try(0));
            var s6 := After(s5, TakeWorkspace(1));
            Inv(s6) && Live(s6, 0, SpecGuard(name, f)) && Live(s6, 1, WorkspaceGuard([f], 0, map[f := 1]))
  {
    AliasesWorkspaceIff(s.dir, name);
    var f := SpecLockFile(s.dir, name);
    assert name != RESERVED by { ReservedInvisible(s.dir); }
    hide SpecLockFile, WorkspaceLockFile, TableAgrees, ProcOk, IsListed, Resolve, BaseName, DirPart, Visible;
    ListedIff(s, name);
    assert ListsAll(s, [f]);
    InitialInv(s);
    var s1 := AfterProbeAndRelease(s, f);
    GuardBesideScan(s1, f, name, timeout);
    InvKept(s, StartWorkspace(1, [f]));
    InvKept(After(s, StartWorkspace(1, [f])), Probe(1));
    InvKept(After(After(s, StartWorkspace(1, [f])), Probe(1)), Release(1));
    InvKept(s1, StartSpec(0, name, timeout));
    InvKept(After(s1, StartSpec(0, name, timeout)), Try(0));
    InvKept(After(After(s1, StartSpec(0, name, timeout)), Try(0)), TakeWorkspace(1));
  }

  lemma ReservedInvisible(dir: File)
    ensures !Visible(dir, RESERVED)
  {
    assert '/' !in RESERVED;
    PlainVisible(dir, RESERVED);
  }

  lemma AfterProbeAndRelease(s: State, f: File) returns (t: State)
    requires Initial(s) && s.files == {f} && ListsAll(s, [f])
    ensures var s1 := After(s, StartWorkspace(1, [f]));
            && Step(s, StartWorkspace(1, [f])).Some? && Step(s1, Probe(1)).Some?
            && Step(After(s1, Probe(1)), Release(1)) == Some(t)
            && t == State(s.dir, 3, s.clock, {f}, map[], map[1 := Scanning([f], 1, 0, map[f := 1])])
  {
    hide IsListed;
    t := After(After(After(s, StartWorkspace(1, [f])), Probe(1)), Release(1));
  }

  lemma GuardBesideScan(s: State, f: File, name: string, timeout: nat)
    requires s.files == {f} && s.holder == map[] && s.procs == map[1 := Scanning([f], 1, 0, map[f := 1])]
    requires name != RESERVED && f == SpecLockFile(s.dir, name) && f != WorkspaceLockFile(s.dir)
    ensures var s1 := After(s, StartSpec(0, name, timeout));
            && Step(s, StartSpec(0, name, timeout)).Some? && Step(s1, Try(0)).Some?
            && var s2 := After(s1, Try(0));
            && Step(s2, TakeWorkspace(1)).Some?
            && var s3 := After(s2, TakeWorkspace(1));
            && Live(s3, 0, SpecGuard(name, f)) && Live(s3, 1, WorkspaceGuard([f], 0, map[f := 1]))
  {
    hide SpecLockFile, WorkspaceLockFile;
  }
}
