/** Which file a lock label stands for. */
module LockPaths {
  import opened Prelude
  import opened Text

  const RESERVED := "workspace"

  /** A path as its components from the root. */
  type File = seq<string>

  /** The pieces between slashes. */
  function Components(path: string): seq<string> {
    var i := FirstIndex(path, '/');
    if i == |path| then [path] else [path[..i]] + Components(path[i + 1..])
  }

  /** Where a path leads from a directory, without symbolic links: empty and `.` pieces
      stay put, `..` goes up and stays at the root. */
  function Walk(dir: File, pieces: seq<string>): File
    decreases |pieces|
  {
    if pieces == [] then dir
    else if pieces[0] == "" || pieces[0] == "." then Walk(dir, pieces[1..])
    else if pieces[0] == ".." then Walk(if dir == [] then [] else dir[..|dir| - 1], pieces[1..])
    else Walk(dir + [pieces[0]], pieces[1..])
  }

  /** Rust's `Path::join` and what the kernel makes of the result: an absolute path
      replaces the directory. */
  function Resolve(dir: File, path: string): File {
    Walk(if "/" <= path then [] else dir, Components(path))
  }

  function SpecLockFile(dir: File, name: string): File {
    Resolve(dir, name + ".lock")
  }

  function WorkspaceLockFile(dir: File): File {
    Resolve(dir, RESERVED + ".lock")
  }

  /** The part of a label after its last slash, and the part up to that slash. */
  function BaseName(name: string): string {
    name[LastIndex(name, '/') + 1..]
  }

  function DirPart(name: string): string {
    name[..LastIndex(name, '/') + 1]
  }

  lemma {:induction false} ComponentsConcat(a: string, b: string)
    requires '/' !in b
    ensures Components(a + "/" + b) == Components(a) + [b]
    decreases |a|
  {
    var i := FirstIndex(a, '/');
    if i == |a| {
      FirstIndexMissing(b, '/');
      ComponentsCons(a, b);
    } else {
      var head, tail := a[..i], a[i + 1..];
      CutAt(a, i);
      assert a == head + "/" + tail;
      assert a + "/" + b == head + "/" + (tail + "/" + b);
      hide FirstIndex, Components;
      ComponentsConcat(tail, b);
      ComponentsCons(head, tail);
      ComponentsCons(head, tail + "/" + b);
    }
  }

  lemma ComponentsCons(head: string, tail: string)
    requires '/' !in head
    ensures Components(head + "/" + tail) == [head] + Components(tail)
  {
    hide FirstIndex;
    var s := head + "/" + tail;
    FirstIndexAt(head, '/', tail);
    assert s == head + ['/'] + tail;
    assert s[..|head|] == head && s[|head| + 1..] == tail;
  }

  lemma {:induction false} WalkConcat(dir: File, a: seq<string>, b: seq<string>)
    ensures Walk(dir, a + b) == Walk(Walk(dir, a), b)
    decreases |a|
  {
    if a == [] {
      assert a + b == b;
    } else {
      assert (a + b)[0] == a[0] && (a + b)[1..] == a[1..] + b;
      WalkConcat(if a[0] == "" || a[0] == "." then dir
                 else if a[0] == ".." then (if dir == [] then [] else dir[..|dir| - 1])
                 else dir + [a[0]], a[1..], b);
    }
  }

  lemma WalkName(dir: File, name: string)
    ensures Walk(dir, [name + ".lock"]) == dir + [name + ".lock"]
  {
    var piece := name + ".lock";
    assert |piece| >= 5;
    var none: seq<string> := [];
    assert [piece][1..] == none;
  }

  lemma PlainLockFile(dir: File, name: string)
    requires '/' !in name
    ensures SpecLockFile(dir, name) == dir + [name + ".lock"]
  {
    hide Walk, FirstIndex;
    var path := name + ".lock";
    assert '/' !in path;
    FirstIndexMissing(path, '/');
    assert Components(path) == [path];
    WalkName(dir, name);
    assert path[0] != '/';
  }

  lemma SlashedLockFile(dir: File, d: string, base: string)
    requires '/' !in base
    ensures SpecLockFile(dir, d + "/" + base) == Resolve(dir, d + "/") + [base + ".lock"]
  {
    hide Walk, Components, FirstIndex;
    var path, from := d + "/" + base + ".lock", if "/" <= d + "/" then [] else dir;
    assert path == d + "/" + (base + ".lock");
    ComponentsConcat(d, base + ".lock");
    assert d + "/" + "" == d + "/";
    ComponentsConcat(d, "");
    var there := Walk(from, Components(d));
    WalkConcat(from, Components(d), [base + ".lock"]);
    WalkConcat(from, Components(d), [""]);
    WalkName(there, base);
    WalkNowhere(there);
    assert path[0] == (d + "/")[0];
  }

  /** A label's lock file is its base name in the directory its directory part leads to. */
  lemma LockFileOf(dir: File, name: string)
    ensures SpecLockFile(dir, name) == Resolve(dir, DirPart(name)) + [BaseName(name) + ".lock"]
  {
    var k := LastIndex(name, '/');
    hide *;
    NoSlashInBase(name);
    if k < 0 {
      PlainSplit(name);
      PlainLockFile(dir, name);
      EmptyPath(dir);
    } else {
      SlashSplit(name);
      SlashedLockFile(dir, name[..k], BaseName(name));
    }
  }

  lemma NoSlashInBase(name: string)
    ensures '/' !in BaseName(name)
  {
    var k := LastIndex(name, '/');
    assert forall i :: 0 <= i < |BaseName(name)| ==> BaseName(name)[i] == name[k + 1 + i];
  }

  lemma PlainSplit(name: string)
    requires LastIndex(name, '/') < 0
    ensures BaseName(name) == name && DirPart(name) == ""
  {
  }

  lemma SlashSplit(name: string)
    requires LastIndex(name, '/') >= 0
    ensures var k := LastIndex(name, '/');
            name == name[..k] + "/" + BaseName(name) && DirPart(name) == name[..k] + "/"
  {
    CutAt(name, LastIndex(name, '/'));
  }

  lemma CutAt(s: string, k: nat)
    requires k < |s|
    ensures s == s[..k] + [s[k]] + s[k + 1..] && s[..k + 1] == s[..k] + [s[k]]
  {
  }

  lemma EmptyPath(dir: File)
    ensures Resolve(dir, "") == dir
  {
    WalkNowhere(dir);
  }

  lemma WalkNowhere(dir: File)
    ensures Walk(dir, [""]) == dir
  {
    var none: seq<string> := [];
    assert [""][1..] == none;
  }

  /** A label's lock is the workspace lock exactly if its base name is `workspace` and its
      directory part leads back to the locks directory. */
  lemma AliasesWorkspaceIff(dir: File, name: string)
    ensures SpecLockFile(dir, name) == WorkspaceLockFile(dir)
      <==> BaseName(name) == RESERVED && Resolve(dir, DirPart(name)) == dir
  {
    SameFile(dir);
    assert '/' !in RESERVED;
    hide *;
    LockFileOf(dir, name);
    PlainLockFile(dir, RESERVED);
    var d, base := Resolve(dir, DirPart(name)), BaseName(name);
    LastPiece(d, dir, base + ".lock", RESERVED + ".lock");
    SameExtension(base, RESERVED);
  }

  lemma SameFile(dir: File)
    ensures SpecLockFile(dir, RESERVED) == WorkspaceLockFile(dir)
  {
  }

  lemma LastPiece(a: File, b: File, x: string, y: string)
    ensures a + [x] == b + [y] <==> a == b && x == y
  {
    if a + [x] == b + [y] {
      assert (a + [x])[..|a|] == a && (b + [y])[..|b|] == b;
      assert (a + [x])[|a|] == x;
    }
  }

  /** Labels without a slash name distinct files in the locks directory; only the reserved
      one, which is refused, names the workspace lock. */
  lemma PlainLabels(dir: File, a: string, b: string)
    requires '/' !in a && '/' !in b
    ensures SpecLockFile(dir, a) == SpecLockFile(dir, b) <==> a == b
    ensures SpecLockFile(dir, a) == WorkspaceLockFile(dir) <==> a == RESERVED
  {
    hide SpecLockFile;
    PlainLockFile(dir, a);
    PlainLockFile(dir, b);
    PlainLockFile(dir, RESERVED);
    SameFile(dir);
    LastPiece(dir, dir, a + ".lock", b + ".lock");
    LastPiece(dir, dir, a + ".lock", RESERVED + ".lock");
    SameExtension(a, b);
    SameExtension(a, RESERVED);
  }

  lemma SameExtension(a: string, b: string)
    ensures a + ".lock" == b + ".lock" <==> a == b
  {
    if a + ".lock" == b + ".lock" {
      assert |a| + 5 == |b| + 5;
      assert (a + ".lock")[..|a|] == a && (b + ".lock")[..|b|] == b;
    }
  }

  /** Comparing the label text with the reserved one does not compare the files: a label
      with a directory part slips past the comparison and names the workspace lock. */
  lemma SlashedLabelAliases(dir: File)
    ensures "./workspace" != RESERVED
    ensures SpecLockFile(dir, "./workspace") == WorkspaceLockFile(dir)
  {
    hide SpecLockFile, WorkspaceLockFile;
    SlashedLockFile(dir, ".", RESERVED);
    assert "." + "/" + RESERVED == "./workspace";
    ComponentsConcat(".", "");
    FirstIndexMissing(".", '/');
    assert "." + "/" + "" == "./";
    assert Components("./") == [".", ""];
    assert [".", ""][1..] == [""];
    WalkNowhere(dir);
    assert Resolve(dir, "./") == dir;
    PlainLockFile(dir, RESERVED);
    SameFile(dir);
  }

  // -------------------------------------------------------------- what is probed

  /** The directory entries `find_held_spec_lock` probes: extension `lock`, and a stem
      other than the reserved one. */
  predicate Probed(name: string) {
    Extension(name) == Some("lock") && FileStem(name) != RESERVED
  }

  /** The labels whose lock file a workspace call probes: their directory part leads back to
      the locks directory, and their base name is neither empty nor the reserved one. */
  predicate Visible(dir: File, name: string) {
    Resolve(dir, DirPart(name)) == dir && BaseName(name) != "" && BaseName(name) != RESERVED
  }

  /** A file name made of a base name is probed unless that is the reserved one or empty:
      `.lock` has no extension. */
  lemma ProbedIff(base: string)
    ensures Probed(base + ".lock") <==> base != "" && base != RESERVED
  {
    var file := base + ".lock";
    assert file == base + ['.'] + "lock";
    LastIndexAt(base, '.', "lock");
    assert file[|base| + 1..] == "lock" && file[..|base|] == base;
  }

  /** A label's lock file lies in the locks directory and is probed exactly if the label is
      visible. */
  lemma VisibleIff(dir: File, name: string)
    ensures var f := SpecLockFile(dir, name);
            |f| == |dir| + 1 && f[..|dir|] == dir && Probed(f[|dir|]) <==> Visible(dir, name)
  {
    hide SpecLockFile, Probed, Resolve, BaseName, DirPart;
    LockFileOf(dir, name);
    ProbedIff(BaseName(name));
    var f, there := SpecLockFile(dir, name), Resolve(dir, DirPart(name));
    assert f == there + [BaseName(name) + ".lock"];
    if |f| == |dir| + 1 {
      assert f[..|dir|] == there && f[|dir|] == BaseName(name) + ".lock";
    }
  }

  /** Labels without a slash are visible unless reserved or empty. */
  lemma PlainVisible(dir: File, name: string)
    requires '/' !in name
    ensures Visible(dir, name) <==> name != "" && name != RESERVED
  {
    hide Resolve;
    NoSlashNoIndex(name);
    PlainSplit(name);
    EmptyPath(dir);
  }

  lemma NoSlashNoIndex(name: string)
    requires '/' !in name
    ensures LastIndex(name, '/') < 0
  {
  }

  /** A label that starts at the parent directory is never visible: its lock file lies
      outside the locks directory. */
  lemma ParentLabelInvisible(dir: File, base: string, name: string)
    requires dir != [] && '/' !in base && name == "../" + base
    ensures !Visible(dir, name) && Resolve(dir, DirPart(name)) != dir
  {
    hide Resolve, FirstIndex;
    LastSlash("..", base);
    assert name == ".." + "/" + base;
    assert DirPart(name) == "../";
    ParentOf(dir);
  }

  lemma LastSlash(a: string, b: string)
    requires '/' !in b
    ensures LastIndex(a + "/" + b, '/') == |a|
  {
    assert a + "/" + b == a + ['/'] + b;
    LastIndexAt(a, '/', b);
  }

  lemma ParentOf(dir: File)
    requires dir != []
    ensures Resolve(dir, "../") == dir[..|dir| - 1]
  {
    hide FirstIndex;
    assert ".." + "/" + "" == "../";
    ComponentsConcat("..", "");
    FirstIndexMissing("..", '/');
    assert Components("../") == ["..", ""];
    assert ["..", ""][1..] == [""];
    WalkNowhere(dir[..|dir| - 1]);
  }

  /** An absolute label leads to the same file from everywhere, so from a locks directory
      other than the one it names it is not visible. */
  lemma AbsoluteLabel(dir: File, other: File, rest: string)
    ensures SpecLockFile(dir, "/" + rest) == SpecLockFile(other, "/" + rest)
    ensures Visible(dir, "/" + rest) && Visible(other, "/" + rest) ==> dir == other
  {
    var name := "/" + rest;
    assert name + ".lock" == "/" + (rest + ".lock");
    hide SpecLockFile, Resolve, Probed;
    assert SpecLockFile(dir, name) == SpecLockFile(other, name) by { SameFromRoot(dir, other, rest); }
    VisibleIff(dir, name);
    VisibleIff(other, name);
    var f := SpecLockFile(dir, name);
    assert Visible(dir, name) && Visible(other, name) ==> f[..|dir|] == dir && f[..|other|] == other;
  }

  lemma SameFromRoot(dir: File, other: File, rest: string)
    ensures SpecLockFile(dir, "/" + rest) == SpecLockFile(other, "/" + rest)
  {
    assert "/" + rest + ".lock" == "/" + (rest + ".lock");
  }
}
