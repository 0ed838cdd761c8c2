/** The scan of test files for tool references, and the packages they stand for. */
module CommandUse {
  import opened Prelude

  const TOOLS := SHELL_TOOLS + BUILD_TOOLS

  const SHELL_TOOLS: seq<(string, string)> := [
    ("curl", "curl"), ("jq", "jq"), ("tmux", "tmux"), ("python", "python3"), ("python3", "python3"),
    ("node", "nodejs"), ("nodejs", "nodejs"), ("git", "git"), ("rsync", "rsync"), ("wget", "wget"),
    ("ssh", "openssh"), ("scp", "openssh"), ("socat", "socat"), ("nc", "netcat"), ("ncat", "netcat"),
    ("netcat", "netcat"), ("dig", "dnsutils"), ("nslookup", "dnsutils"), ("sqlite3", "sqlite")
  ]

  const BUILD_TOOLS: seq<(string, string)> := [
    ("psql", "postgresql"), ("docker", "docker"), ("podman", "podman"), ("nix", "nix"),
    ("shellcheck", "shellcheck"), ("shfmt", "shfmt"), ("rg", "ripgrep"), ("ripgrep", "ripgrep"),
    ("fd", "fd"), ("fzf", "fzf"), ("bat", "bat"), ("diff", "diffutils"), ("patch", "patch"),
    ("make", "gnumake"), ("gcc", "gcc"), ("cc", "gcc"), ("go", "go"), ("cargo", "rustc"),
    ("rustc", "rustc")
  ]

  predicate BoundaryBefore(c: char) {
    c == '\n' || c == ' ' || c == '\t' || c == '|' || c == ';' || c == '&' || c == '('
  }

  predicate BoundaryAfter(c: char) {
    c == '\n' || c == ' ' || c == '\t' || c == '|' || c == ';' || c == '&' || c == ')'
  }

  predicate OccursAt(body: string, tool: string, at: nat) {
    at + |tool| <= |body| && body[at..at + |tool|] == tool
  }

  /** An occurrence of the tool delimited on both sides; the ends of the text delimit. */
  predicate UsedAt(body: string, tool: string, at: nat) {
    && OccursAt(body, tool, at)
    && (at == 0 || BoundaryBefore(body[at - 1]))
    && (at + |tool| == |body| || BoundaryAfter(body[at + |tool|]))
  }

  ghost predicate Used(body: string, tool: string) {
    exists at: nat :: at <= |body| && UsedAt(body, tool, at)
  }

  method FindSubslice(haystack: string, needle: string) returns (r: Option<nat>)
    ensures needle == "" ==> r == None
    ensures needle != "" ==> (r.None? <==> forall at: nat :: !OccursAt(haystack, needle, at))
    ensures r.Some? ==> OccursAt(haystack, needle, r.value)
    ensures r.Some? ==> forall at: nat :: at < r.value ==> !OccursAt(haystack, needle, at)
  {
    if needle == "" || |needle| > |haystack| { return None; }
    for i := 0 to |haystack| - |needle| + 1
      invariant forall at: nat :: at < i ==> !OccursAt(haystack, needle, at)
    {
      if haystack[i..i + |needle|] == needle {
        assert OccursAt(haystack, needle, i);
        return Some(i);
      }
    }
    r := None;
  }

  lemma SuffixOccurrence(body: string, tool: string, i: nat, at: nat)
    requires i <= at && i <= |body|
    ensures OccursAt(body, tool, at) <==> OccursAt(body[i..], tool, at - i)
  {
    if at + |tool| <= |body| { assert body[i..][at - i..at - i + |tool|] == body[at..at + |tool|]; }
  }

  lemma NoOccurrenceBetween(body: string, tool: string, i: nat, off: nat)
    requires i <= |body| && forall k: nat :: k < off ==> !OccursAt(body[i..], tool, k)
    ensures forall at: nat :: i <= at < i + off ==> !OccursAt(body, tool, at)
  {
    forall at: nat | i <= at < i + off ensures !OccursAt(body, tool, at) {
      SuffixOccurrence(body, tool, i, at);
    }
  }

  method HasCommandUse(body: string, tool: string) returns (used: bool)
    ensures tool != "" ==> (used <==> Used(body, tool))
    ensures tool == "" ==> !used
  {
    var i := 0;
    while true
      invariant 0 <= i <= |body|
      invariant tool != "" ==> forall at: nat :: at < i ==> !UsedAt(body, tool, at)
      decreases |body| - i
    {
      var off := FindSubslice(body[i..], tool);
      if off.None? {
        if tool != "" { NoOccurrenceBetween(body, tool, i, |body| + 1); }
        return false;
      }
      var start := i + off.value;
      var end := start + |tool|;
      SuffixOccurrence(body, tool, i, start);
      NoOccurrenceBetween(body, tool, i, off.value);
      var prev := if start == 0 then '\n' else body[start - 1];
      var next := if end == |body| then '\n' else body[end];
      if BoundaryBefore(prev) && BoundaryAfter(next) {
        assert UsedAt(body, tool, start);
        return true;
      }
      i := start + 1;
    }
  }

  /** The tool with nothing, or one of these characters, on either side. */
  predicate SpelledUse(body: string, tool: string, a: string, b: string) {
    && body == a + tool + b
    && (a == "" || a[|a| - 1] in "\n \t|;&(")
    && (b == "" || b[0] in "\n \t|;&)")
  }

  lemma UsedByText(body: string, tool: string)
    ensures Used(body, tool) <==> exists a, b :: SpelledUse(body, tool, a, b)
  {
    if Used(body, tool) {
      var at: nat :| at <= |body| && UsedAt(body, tool, at);
      var a, b := body[..at], body[at + |tool|..];
      assert body == a + tool + b;
      assert SpelledUse(body, tool, a, b);
    }
    forall a, b | SpelledUse(body, tool, a, b) ensures Used(body, tool) {
      assert body[|a|..|a| + |tool|] == tool;
      assert a != "" ==> body[|a| - 1] == a[|a| - 1];
      assert b != "" ==> body[|a| + |tool|] == b[0];
      assert UsedAt(body, tool, |a|);
    }
  }

  /** The packages of exactly those table rows whose tool the text uses. */
  ghost function PackagesUsed(body: string, rows: seq<(string, string)>): set<string> {
    set row | row in rows && Used(body, row.0) :: row.1
  }

  predicate Named(rows: seq<(string, string)>) {
    forall i :: 0 <= i < |rows| ==> rows[i].0 != "" && '\n' !in rows[i].0
  }

  lemma ToolsNamed()
    ensures Named(TOOLS)
  {
    hide SHELL_TOOLS, BUILD_TOOLS;
    ShellToolsNamed();
    BuildToolsNamed();
    forall i | 0 <= i < |TOOLS| ensures TOOLS[i].0 != "" && '\n' !in TOOLS[i].0 {
      if i < |SHELL_TOOLS| {
        assert TOOLS[i] == SHELL_TOOLS[i];
      } else {
        assert TOOLS[i] == BUILD_TOOLS[i - |SHELL_TOOLS|];
      }
    }
  }

  const ALIASES := {
    ("python", "python3"), ("node", "nodejs"), ("ssh", "openssh"), ("scp", "openssh"), ("nc", "netcat"),
    ("ncat", "netcat"), ("dig", "dnsutils"), ("nslookup", "dnsutils"), ("sqlite3", "sqlite"),
    ("psql", "postgresql"), ("rg", "ripgrep"), ("diff", "diffutils"), ("make", "gnumake"), ("cc", "gcc"),
    ("cargo", "rustc")
  }

  /** A tool comes from the package of its own name, but for these fifteen. */
  lemma ToolPackages(i: nat)
    requires i < |TOOLS|
    ensures |TOOLS| == 38
    ensures TOOLS[i].0 == TOOLS[i].1 || TOOLS[i] in ALIASES
    ensures forall row :: row in ALIASES ==> row in TOOLS
  {
    hide SHELL_TOOLS, BUILD_TOOLS, ALIASES;
    ShellPackages();
    BuildPackages();
    AliasesInUse();
    if i < |SHELL_TOOLS| {
      assert TOOLS[i] == SHELL_TOOLS[i];
    } else {
      assert TOOLS[i] == BUILD_TOOLS[i - |SHELL_TOOLS|];
    }
  }

  lemma ShellPackages()
    ensures |SHELL_TOOLS| == 19
    ensures forall i :: 0 <= i < |SHELL_TOOLS| ==> SHELL_TOOLS[i].0 == SHELL_TOOLS[i].1 || SHELL_TOOLS[i] in ALIASES
  {
  }

  lemma BuildPackages()
    ensures |BUILD_TOOLS| == 19
    ensures forall i :: 0 <= i < |BUILD_TOOLS| ==> BUILD_TOOLS[i].0 == BUILD_TOOLS[i].1 || BUILD_TOOLS[i] in ALIASES
  {
  }

  lemma AliasesInUse()
    ensures forall row :: row in ALIASES ==> row in SHELL_TOOLS || row in BUILD_TOOLS
  {
    assert SHELL_TOOLS[3] in SHELL_TOOLS && SHELL_TOOLS[5] in SHELL_TOOLS && SHELL_TOOLS[10] in SHELL_TOOLS;
    assert SHELL_TOOLS[11] in SHELL_TOOLS && SHELL_TOOLS[13] in SHELL_TOOLS && SHELL_TOOLS[14] in SHELL_TOOLS;
    assert SHELL_TOOLS[16] in SHELL_TOOLS && SHELL_TOOLS[17] in SHELL_TOOLS && SHELL_TOOLS[18] in SHELL_TOOLS;
    assert BUILD_TOOLS[0] in BUILD_TOOLS && BUILD_TOOLS[6] in BUILD_TOOLS && BUILD_TOOLS[11] in BUILD_TOOLS;
    assert BUILD_TOOLS[13] in BUILD_TOOLS && BUILD_TOOLS[15] in BUILD_TOOLS && BUILD_TOOLS[17] in BUILD_TOOLS;
  }

  lemma ShellToolsNamed()
    ensures Named(SHELL_TOOLS)
  {
  }

  lemma BuildToolsNamed()
    ensures Named(BUILD_TOOLS)
  {
  }

  method ScanFileBody(body: string) returns (packages: set<string>)
    ensures packages == PackagesUsed(body, TOOLS)
  {
    ToolsNamed();
    packages := ScanRows(body, TOOLS);
  }

  method ScanRows(body: string, rows: seq<(string, string)>) returns (packages: set<string>)
    requires Named(rows)
    ensures packages == PackagesUsed(body, rows)
  {
    hide Used;
    packages := {};
    for i := 0 to |rows|
      invariant packages == PackagesUsed(body, rows[..i])
    {
      assert rows[i] in rows && rows[..i + 1] == rows[..i] + [rows[i]];
      var used := HasCommandUse(body, rows[i].0);
      if used { packages := packages + {rows[i].1}; }
    }
    assert rows[..|rows|] == rows;
  }

  // ------------------------------------------------------------ line by line

  /** A newline delimits on both sides, so a tool is used in a text iff it is used in
      one of the parts around any of its newlines. */
  lemma UsedAcrossNewline(a: string, b: string, tool: string)
    requires tool != "" && '\n' !in tool
    ensures Used(a + "\n" + b, tool) <==> Used(a, tool) || Used(b, tool)
  {
    var s := a + "\n" + b;
    if Used(a, tool) {
      var at: nat :| at <= |a| && UsedAt(a, tool, at);
      var end := at + |tool|;
      assert s[at..end] == a[at..end];
      assert s[end] == if end < |a| then a[end] else '\n';
      assert at > 0 ==> s[at - 1] == a[at - 1];
      assert UsedAt(s, tool, at);
    }
    if Used(b, tool) {
      var at: nat :| at <= |b| && UsedAt(b, tool, at);
      var shifted := |a| + 1 + at;
      var end := shifted + |tool|;
      assert s[shifted..end] == b[at..at + |tool|];
      assert s[shifted - 1] == if at == 0 then '\n' else b[at - 1];
      assert end < |s| ==> s[end] == b[at + |tool|];
      assert UsedAt(s, tool, shifted);
    }
    if Used(s, tool) {
      var at: nat :| at <= |s| && UsedAt(s, tool, at);
      UseOnOneSide(a, b, tool, at);
    }
  }

  lemma UseOnOneSide(a: string, b: string, tool: string, at: nat)
    requires tool != "" && '\n' !in tool && UsedAt(a + "\n" + b, tool, at)
    ensures Used(a, tool) || Used(b, tool)
  {
    var s := a + "\n" + b;
    var end := at + |tool|;
    assert forall k :: at <= k < end ==> s[k] == tool[k - at];
    assert s[|a|] == '\n';
    if end <= |a| {
      assert s[at..end] == a[at..end];
      assert UsedAt(a, tool, at);
    } else {
      assert at > |a|;
      var k := at - |a| - 1;
      assert s[at..end] == b[k..k + |tool|];
      assert UsedAt(b, tool, k);
    }
  }

  /** Scanning a file whole finds what scanning its pieces finds. */
  lemma ScanSplitsAtNewlines(a: string, b: string, rows: seq<(string, string)>)
    requires Named(rows)
    ensures PackagesUsed(a + "\n" + b, rows) == PackagesUsed(a, rows) + PackagesUsed(b, rows)
  {
    hide Used;
    forall row | row in rows ensures Used(a + "\n" + b, row.0) <==> Used(a, row.0) || Used(b, row.0) {
      UsedAcrossNewline(a, b, row.0);
    }
  }
}
