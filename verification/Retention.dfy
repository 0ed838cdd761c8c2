/** The best-effort sweep of old log files over a directory tree. */
module Retention {
  import opened Prelude

  type Path = seq<string>

  /** What the walk meets. `Untyped` entries fail `file_type`, a `File` without an mtime
      fails `metadata`, an unreadable directory fails `read_dir`; `Other` is neither
      file nor directory.  Entries the directory stream itself fails to yield are absent. */
  datatype Node =
    | File(name: string, mtime: Option<int>)
    | Dir(name: string, readable: bool, entries: seq<Node>)
    | Other(name: string)
    | Untyped(name: string)

  datatype Report = Report(deleted: seq<Path>, failed: seq<Path>, skippedRecent: nat)

  const NOTHING := Report([], [], 0)

  // ------------------------------------------------------------- what is there

  /** The regular files the walk enumerates, and the places where it cannot look. */
  datatype Entry = Regular(path: Path, mtime: Option<int>) | Unseen(path: Path)

  function Enumerate(dir: Path, nodes: seq<Node>): seq<Entry>
    decreases nodes
  {
    if nodes == [] then [] else EnumerateNode(dir, nodes[0]) + Enumerate(dir, nodes[1..])
  }

  function EnumerateNode(dir: Path, node: Node): seq<Entry>
    decreases node
  {
    var path := dir + [node.name];
    match node
    case File(_, mtime) => [Regular(path, mtime)]
    case Untyped(_) => [Unseen(path)]
    case Other(_) => []
    case Dir(_, readable, entries) => if readable then Enumerate(path, entries) else [Unseen(path)]
  }

  datatype Verdict = Deleted | Failed | Recent

  /** Whether removing a file succeeds. */
  type Remover = Path -> bool

  function Judge(e: Entry, cutoff: int, remover: Remover): Verdict {
    match e
    case Unseen(_) => Failed
    case Regular(_, None) => Failed
    case Regular(path, Some(mtime)) =>
      if mtime >= cutoff then Recent else if remover(path) then Deleted else Failed
  }

  function Tally(entries: seq<Entry>, cutoff: int, remover: Remover): Report {
    if entries == [] then NOTHING
    else Merge(Single(entries[0], cutoff, remover), Tally(entries[1..], cutoff, remover))
  }

  function Single(e: Entry, cutoff: int, remover: Remover): Report {
    match Judge(e, cutoff, remover)
    case Deleted => Report([e.path], [], 0)
    case Failed => Report([], [e.path], 0)
    case Recent => Report([], [], 1)
  }

  function Merge(a: Report, b: Report): Report {
    Report(a.deleted + b.deleted, a.failed + b.failed, a.skippedRecent + b.skippedRecent)
  }

  lemma {:induction false} TallyConcat(a: seq<Entry>, b: seq<Entry>, cutoff: int, remover: Remover)
    ensures Tally(a + b, cutoff, remover) == Merge(Tally(a, cutoff, remover), Tally(b, cutoff, remover))
  {
    hide Merge, Single;
    if a == [] {
      assert a + b == b;
      MergeNothing(Tally(b, cutoff, remover));
    } else {
      TallyConcat(a[1..], b, cutoff, remover);
      assert (a + b)[0] == a[0] && (a + b)[1..] == a[1..] + b;
      MergeAssoc(Single(a[0], cutoff, remover), Tally(a[1..], cutoff, remover), Tally(b, cutoff, remover));
    }
  }

  // ------------------------------------------------------------------ the sweep

  class LogsTree {
    const remover: Remover
    /** The regular files on disk. */
    var existing: set<Path>
    var report: Report

    constructor (existing: set<Path>, remover: Remover)
      ensures this.existing == existing && this.remover == remover && report == NOTHING
    {
      this.existing, this.remover, report := existing, remover, NOTHING;
    }

    method RemoveFile(path: Path) returns (ok: bool)
      modifies this`existing
      ensures ok == remover(path)
      ensures existing == if ok then old(existing) - {path} else old(existing)
    {
      ok := remover(path);
      if ok { existing := existing - {path}; }
    }

    /** The walk adds the tally of what it enumerates, and removes exactly the files it
        reports as deleted. */
    method WalkAndSweep(path: Path, dir: Node, cutoff: int)
      requires dir.Dir?
      modifies this
      ensures var found := if dir.readable then Enumerate(path, dir.entries) else [Unseen(path)];
        var tally := Tally(found, cutoff, remover);
        && report == Merge(old(report), tally)
        && existing == old(existing) - Elements(tally.deleted)
      decreases dir, 0
    {
      hide Enumerate, Tally, Merge;
      if !dir.readable {
        TallyOne(Unseen(path), cutoff, remover);
        MergeOne(report, path);
        report := report.(failed := report.failed + [path]);
        return;
      }
      ghost var seen: Report := NOTHING;
      MergeNothing(report);
      assert dir.entries[0..] == dir.entries && existing == existing - Elements(seen.deleted);
      TallyPrefix(path, dir.entries, 0, cutoff, remover);
      for i := 0 to |dir.entries|
        invariant seen == Tally(Enumerate(path, dir.entries[..i]), cutoff, remover)
        invariant report == Merge(old(report), seen)
        invariant existing == old(existing) - Elements(seen.deleted)
      {
        var entry := dir.entries[i];
        ghost var before, left := report, existing;
        SweepEntry(path, entry, cutoff);
        ghost var now := Tally(EnumerateNode(path, entry), cutoff, remover);
        TallyPrefix(path, dir.entries, i + 1, cutoff, remover);
        MergeAssoc(old(report), seen, now);
        ElementsMerge(seen, now);
        seen := Merge(seen, now);
      }
      assert dir.entries[..|dir.entries|] == dir.entries;
    }

    /** One round of the walk's loop. */
    method SweepEntry(dir: Path, entry: Node, cutoff: int)
      modifies this
      ensures var tally := Tally(EnumerateNode(dir, entry), cutoff, remover);
        && report == Merge(old(report), tally)
        && existing == old(existing) - Elements(tally.deleted)
      decreases entry, 1
    {
      hide Enumerate, Tally, Merge;
      var path := dir + [entry.name];
      MergeNothing(report);
      MergeOne(report, path);
      TallyNone(cutoff, remover);
      match entry {
        case Untyped(_) =>
          TallyOne(Unseen(path), cutoff, remover);
          report := report.(failed := report.failed + [path]);
        case Dir(_, _, _) =>
          WalkAndSweep(path, entry, cutoff);
        case Other(_) =>
        case File(_, mtime) =>
          TallyOne(Regular(path, mtime), cutoff, remover);
          if mtime.None? {
            report := report.(failed := report.failed + [path]);
          } else if mtime.value >= cutoff {
            report := report.(skippedRecent := report.skippedRecent + 1);
          } else {
            var ok := RemoveFile(path);
            if ok {
              report := report.(deleted := report.deleted + [path]);
            } else {
              report := report.(failed := report.failed + [path]);
            }
          }
      }
    }
  }

  lemma TallyNone(cutoff: int, remover: Remover)
    ensures Tally([], cutoff, remover) == NOTHING
  {
  }

  lemma TallyOne(e: Entry, cutoff: int, remover: Remover)
    ensures Tally([e], cutoff, remover) == Single(e, cutoff, remover)
  {
    hide Single;
    var none: seq<Entry> := [];
    assert [e][1..] == none;
    MergeNothing(Single(e, cutoff, remover));
  }

  lemma MergeNothing(r: Report)
    ensures Merge(r, NOTHING) == r && Merge(NOTHING, r) == r
  {
  }

  lemma MergeOne(r: Report, path: Path)
    ensures Merge(r, Report([path], [], 0)) == r.(deleted := r.deleted + [path])
    ensures Merge(r, Report([], [path], 0)) == r.(failed := r.failed + [path])
    ensures Merge(r, Report([], [], 1)) == r.(skippedRecent := r.skippedRecent + 1)
    ensures Elements([path]) == {path}
  {
    assert r.deleted + [] == r.deleted && r.failed + [] == r.failed;
  }

  lemma MergeAssoc(a: Report, b: Report, c: Report)
    ensures Merge(a, Merge(b, c)) == Merge(Merge(a, b), c)
  {
  }

  lemma ElementsMerge(a: Report, b: Report)
    ensures Elements(Merge(a, b).deleted) == Elements(a.deleted) + Elements(b.deleted)
  {
  }

  lemma {:induction false} EnumerateSnoc(dir: Path, nodes: seq<Node>, node: Node)
    ensures Enumerate(dir, nodes + [node]) == Enumerate(dir, nodes) + EnumerateNode(dir, node)
  {
    if nodes == [] {
      var none: seq<Node> := [];
      assert nodes + [node] == [node] && [node][1..] == none;
    } else {
      EnumerateSnoc(dir, nodes[1..], node);
      assert (nodes + [node])[0] == nodes[0] && (nodes + [node])[1..] == nodes[1..] + [node];
    }
  }

  lemma TallyPrefix(dir: Path, nodes: seq<Node>, i: nat, cutoff: int, remover: Remover)
    requires i <= |nodes|
    ensures Tally(Enumerate(dir, nodes[..i]), cutoff, remover) ==
            if i == 0 then NOTHING
            else Merge(Tally(Enumerate(dir, nodes[..i - 1]), cutoff, remover),
                       Tally(EnumerateNode(dir, nodes[i - 1]), cutoff, remover))
  {
    hide Judge, EnumerateNode, Merge;
    if i > 0 {
      hide Tally, Enumerate;
      assert nodes[..i] == nodes[..i - 1] + [nodes[i - 1]];
      EnumerateSnoc(dir, nodes[..i - 1], nodes[i - 1]);
      TallyConcat(Enumerate(dir, nodes[..i - 1]), EnumerateNode(dir, nodes[i - 1]), cutoff, remover);
    }
  }

  // ------------------------------------------------------------ the whole sweep

  const SECONDS_PER_DAY := 86_400
  /** The earliest representable `SystemTime`, in seconds from the epoch. */
  const EARLIEST := -0x8000_0000_0000_0000

  /** `sweep_retention_at`: `None` when the sweep does not run at all. */
  function Cutoff(retentionDays: nat, now: int): Option<int> {
    if retentionDays == 0 || now - retentionDays * SECONDS_PER_DAY < EARLIEST then None
    else Some(now - retentionDays * SECONDS_PER_DAY)
  }

  /** No retention in `u32` days is long enough to skip a sweep today: from the epoch on the
      sweep runs whenever retention is on, also with a cutoff before the epoch, which it has
      exactly if the retention reaches back that far. */
  lemma CutoffMayPrecedeEpoch(retentionDays: nat, now: nat)
    requires retentionDays < 0x1_0000_0000
    ensures Cutoff(retentionDays, now).None? <==> retentionDays == 0
    ensures retentionDays > 0 ==> (Cutoff(retentionDays, now).value < 0 <==> now < retentionDays * 86_400)
    ensures Cutoff(1, 0) == Some(-86_400)
  {
  }

  method SweepRetentionAt(logs: LogsTree, root: Option<Node>, retentionDays: nat, now: int) returns (report: Report)
    requires root.Some? ==> root.value.Dir?
    requires logs.report == NOTHING
    modifies logs
    ensures report == logs.report
    ensures root.None? || Cutoff(retentionDays, now).None? ==> report == NOTHING && logs.existing == old(logs.existing)
    ensures root.Some? && Cutoff(retentionDays, now).Some? ==>
      var found := if root.value.readable then Enumerate([root.value.name], root.value.entries)
                   else [Unseen([root.value.name])];
      && report == Tally(found, Cutoff(retentionDays, now).value, logs.remover)
      && logs.existing == old(logs.existing) - Elements(report.deleted)
  {
    report := logs.report;
    if retentionDays == 0 || root.None? { return; }
    var cutoff := now - retentionDays * SECONDS_PER_DAY;
    if cutoff < EARLIEST { return; }
    logs.WalkAndSweep([root.value.name], root.value, cutoff);
    report := logs.report;
    MergeNothing(Tally(if root.value.readable then Enumerate([root.value.name], root.value.entries)
                       else [Unseen([root.value.name])], cutoff, logs.remover));
  }

  // --------------------------------------------------------------- conservation

  /** Names are unique within every directory, as on any file system. */
  predicate WellNamed(nodes: seq<Node>)
    decreases nodes
  {
    && (forall i, j :: 0 <= i < j < |nodes| ==> nodes[i].name != nodes[j].name)
    && (forall i :: 0 <= i < |nodes| && nodes[i].Dir? ==> WellNamed(nodes[i].entries))
  }

  predicate DistinctPaths(entries: seq<Entry>) {
    forall i, j :: 0 <= i < j < |entries| ==> entries[i].path != entries[j].path
  }

  predicate Under(dir: Path, entries: seq<Entry>) {
    forall i :: 0 <= i < |entries| ==> dir <= entries[i].path
  }

  lemma {:induction false} EnumeratedUnder(dir: Path, nodes: seq<Node>)
    ensures Under(dir, Enumerate(dir, nodes))
    ensures forall i :: 0 <= i < |Enumerate(dir, nodes)| ==>
      exists k :: 0 <= k < |nodes| && dir + [nodes[k].name] <= Enumerate(dir, nodes)[i].path
    decreases nodes
  {
    if nodes != [] {
      NodeUnder(dir, nodes[0]);
      EnumeratedUnder(dir, nodes[1..]);
      var head, tail := EnumerateNode(dir, nodes[0]), Enumerate(dir, nodes[1..]);
      forall i | 0 <= i < |Enumerate(dir, nodes)|
        ensures exists k :: 0 <= k < |nodes| && dir + [nodes[k].name] <= Enumerate(dir, nodes)[i].path
      {
        if i < |head| {
          assert dir + [nodes[0].name] <= Enumerate(dir, nodes)[i].path;
        } else {
          var k :| 0 <= k < |nodes[1..]| && dir + [nodes[1..][k].name] <= tail[i - |head|].path;
          assert dir + [nodes[k + 1].name] <= Enumerate(dir, nodes)[i].path;
        }
      }
    }
  }

  lemma NodeUnder(dir: Path, node: Node)
    ensures Under(dir + [node.name], EnumerateNode(dir, node))
    decreases node
  {
    if node.Dir? && node.readable { EnumeratedUnder(dir + [node.name], node.entries); }
  }

  lemma {:induction false} EnumeratedOnce(dir: Path, nodes: seq<Node>)
    requires WellNamed(nodes)
    ensures DistinctPaths(Enumerate(dir, nodes))
    decreases nodes
  {
    if nodes != [] {
      var node, rest := nodes[0], nodes[1..];
      var head, tail := EnumerateNode(dir, node), Enumerate(dir, rest);
      assert forall i :: 0 <= i < |rest| ==> rest[i] == nodes[i + 1];
      EnumeratedOnce(dir, rest);
      if node.Dir? { EnumeratedOnce(dir + [node.name], node.entries); }
      NodeUnder(dir, node);
      EnumeratedUnder(dir, rest);
      forall i, j | 0 <= i < |head| && 0 <= j < |tail| ensures head[i].path != tail[j].path {
        var k :| 0 <= k < |rest| && dir + [rest[k].name] <= tail[j].path;
        assert head[i].path[|dir|] == node.name && tail[j].path[|dir|] == rest[k].name;
      }
    }
  }

  /** A path of names leads through readable directories to a node. */
  ghost predicate Leads(nodes: seq<Node>, steps: Path, n: Node)
    decreases |steps|, 1
  {
    exists node :: node in nodes && LeadsFrom(node, steps, n)
  }

  ghost predicate LeadsFrom(node: Node, steps: Path, n: Node)
    decreases |steps|, 0
  {
    && steps != [] && node.name == steps[0]
    && if |steps| == 1 then node == n else node.Dir? && node.readable && Leads(node.entries, steps[1..], n)
  }

  /** A regular file with its time, or a place where the walk cannot look. */
  predicate Shows(n: Node, e: Entry) {
    match e
    case Regular(_, mtime) => n.File? && n.mtime == mtime
    case Unseen(_) => n.Untyped? || (n.Dir? && !n.readable)
  }

  ghost predicate LeadsToSome(nodes: seq<Node>, steps: Path, e: Entry) {
    exists n :: Leads(nodes, steps, n) && Shows(n, e)
  }

  /** The walk enumerates exactly the regular files, untyped entries and unreadable
      directories that a path leads to, at any depth. */
  lemma {:induction false} EnumeratesWhatPathsLeadTo(dir: Path, nodes: seq<Node>, steps: Path, e: Entry)
    requires e.path == dir + steps
    ensures e in Enumerate(dir, nodes) <==> LeadsToSome(nodes, steps, e)
    decreases nodes, 1
  {
    if nodes != [] {
      var node, rest := nodes[0], nodes[1..];
      assert nodes == [node] + rest;
      EnumeratesWhatPathsLeadTo(dir, rest, steps, e);
      NodeShows(dir, node, steps, e);
      LeadsCons(node, rest, steps, e);
    }
  }

  ghost predicate NodeLeadsToSome(node: Node, steps: Path, e: Entry) {
    exists n :: LeadsFrom(node, steps, n) && Shows(n, e)
  }

  lemma LeadsCons(node: Node, rest: seq<Node>, steps: Path, e: Entry)
    ensures LeadsToSome([node] + rest, steps, e) <==> NodeLeadsToSome(node, steps, e) || LeadsToSome(rest, steps, e)
  {
    hide LeadsFrom, Shows;
    var nodes := [node] + rest;
    forall n ensures Leads(nodes, steps, n) <==> LeadsFrom(node, steps, n) || Leads(rest, steps, n) {
      if Leads(rest, steps, n) {
        var m :| m in rest && LeadsFrom(m, steps, n);
        assert m in nodes;
      }
    }
  }

  lemma NodeShows(dir: Path, node: Node, steps: Path, e: Entry)
    requires e.path == dir + steps
    ensures e in EnumerateNode(dir, node) <==> NodeLeadsToSome(node, steps, e)
    decreases node, 0
  {
    var path := dir + [node.name];
    NodeUnder(dir, node);
    if steps == [] || steps[0] != node.name {
      forall i | 0 <= i < |EnumerateNode(dir, node)| ensures EnumerateNode(dir, node)[i] != e {
        var p := EnumerateNode(dir, node)[i].path;
        assert path <= p && p[|dir|] == path[|dir|] == node.name;
        assert steps != [] ==> e.path[|dir|] == steps[0];
      }
    } else if |steps| == 1 {
      assert dir + steps == path;
      assert LeadsFrom(node, steps, node);
      if node.Dir? && node.readable { NothingAtTheTop(path, node.entries, e); }
    } else {
      assert dir + steps == path + steps[1..];
      assert e.path != path;
      if node.Dir? && node.readable {
        EnumeratesWhatPathsLeadTo(path, node.entries, steps[1..], e);
        forall n ensures LeadsFrom(node, steps, n) <==> Leads(node.entries, steps[1..], n) {}
      }
    }
  }

  lemma NothingAtTheTop(path: Path, entries: seq<Node>, e: Entry)
    requires e.path == path
    ensures e !in Enumerate(path, entries)
  {
    EnumeratedUnder(path, entries);
  }

  /** The paths with a given verdict, in order. */
  function PathsJudged(entries: seq<Entry>, v: Verdict, cutoff: int, remover: Remover): seq<Path> {
    if entries == [] then [] else
      var here := if Judge(entries[0], cutoff, remover) == v then [entries[0].path] else [];
      here + PathsJudged(entries[1..], v, cutoff, remover)
  }

  lemma {:induction false} TallyByVerdict(entries: seq<Entry>, cutoff: int, remover: Remover)
    ensures Tally(entries, cutoff, remover) ==
            Report(PathsJudged(entries, Deleted, cutoff, remover), PathsJudged(entries, Failed, cutoff, remover),
                   |PathsJudged(entries, Recent, cutoff, remover)|)
    ensures var t := Tally(entries, cutoff, remover);
            |t.deleted| + |t.failed| + t.skippedRecent == |entries|
  {
    hide Judge;
    if entries != [] { TallyByVerdict(entries[1..], cutoff, remover); }
  }

  lemma {:induction false} JudgedPaths(entries: seq<Entry>, v: Verdict, cutoff: int, remover: Remover, path: Path)
    ensures path in PathsJudged(entries, v, cutoff, remover) <==>
      exists e :: e in entries && e.path == path && Judge(e, cutoff, remover) == v
  {
    hide Judge;
    if entries != [] {
      var first, rest := entries[0], entries[1..];
      assert entries == [first] + rest;
      JudgedPaths(rest, v, cutoff, remover, path);
      assert path in PathsJudged(entries, v, cutoff, remover) <==>
        (Judge(first, cutoff, remover) == v && first.path == path) || path in PathsJudged(rest, v, cutoff, remover);
    }
  }

  /** Conservation: every enumerated file is deleted, failed or recent, exactly one of
      the three, and the report counts each once; deletion means older than the cutoff. */
  lemma SweepConserves(dir: Path, nodes: seq<Node>, cutoff: int, remover: Remover, k: nat)
    requires WellNamed(nodes) && k < |Enumerate(dir, nodes)|
    ensures var entries := Enumerate(dir, nodes); var e := entries[k]; var t := Tally(entries, cutoff, remover);
            && |t.deleted| + |t.failed| + t.skippedRecent == |entries|
            && (e.path in t.deleted <==> e.Regular? && e.mtime.Some? && e.mtime.value < cutoff && remover(e.path))
            && (e.path in t.failed <==> e.Unseen? || e.mtime.None? || (e.mtime.value < cutoff && !remover(e.path)))
            && !(e.path in t.deleted && e.path in t.failed)
            && (e.path !in t.deleted && e.path !in t.failed <==> e.Regular? && e.mtime.Some? && e.mtime.value >= cutoff)
  {
    hide Enumerate, Tally;
    var entries := Enumerate(dir, nodes);
    EnumeratedOnce(dir, nodes);
    TallyByVerdict(entries, cutoff, remover);
    var path := entries[k].path;
    JudgedPaths(entries, Deleted, cutoff, remover, path);
    JudgedPaths(entries, Failed, cutoff, remover, path);
    forall e | e in entries && e.path == path ensures e == entries[k] {
      var i :| 0 <= i < |entries| && entries[i] == e;
    }
  }
}
