/** The `## Companions` section of a spec: a flat bullet list of backticked paths. */
module Companions {
  import opened Prelude
  import opened Text

  const HEADING := "## Companions"

  function LeadingHashes(s: string): (n: nat)
    ensures n <= |s|
  {
    if s == "" || s[0] != '#' then 0 else 1 + LeadingHashes(s[1..])
  }

  predicate IsHeading(line: string) {
    var trimmed := TrimStart(line);
    var hashes := LeadingHashes(trimmed);
    hashes > 0 && " " <= trimmed[hashes..]
  }

  function Count(s: string, c: char): nat {
    if s == "" then 0 else (if s[0] == c then 1 else 0) + Count(s[1..], c)
  }

  function Normalize(raw: string): string {
    if raw != "" && raw[0] == '/' then Normalize(raw[1..]) else raw
  }

  function ExtractBacktickPath(body: string): Result<string, string> {
    if Count(body, '`') == 0 then Err("no backticks")
    else if Count(body, '`') != 2 then Err("expected exactly one backticked path")
    else
      var start := FirstIndex(body, '`');
      if start == |body| then Err("no opening backtick") else
        var rest := body[start + 1..];
        var end := FirstIndex(rest, '`');
        if end == |rest| then Err("no closing backtick")
        else if end == 0 then Err("empty path")
        else Ok(Normalize(rest[..end]))
  }

  /** The paths listed from here to the next heading. */
  function PathsBelow(lines: seq<string>): seq<string> {
    if lines == [] || IsHeading(lines[0]) then []
    else
      var trimmed := TrimStart(lines[0]);
      var here := if "- " <= trimmed && ExtractBacktickPath(trimmed[2..]).Ok?
                  then [ExtractBacktickPath(trimmed[2..]).value] else [];
      here + PathsBelow(lines[1..])
  }

  function PathsOf(lines: seq<string>): seq<string> {
    if lines == [] then []
    else if lines[0] == HEADING then PathsBelow(lines[1..])
    else PathsOf(lines[1..])
  }

  function CompanionPaths(content: string): seq<string> {
    PathsOf(Lines(content))
  }

  method ParseCompanions(content: string) returns (paths: seq<string>)
    ensures paths == CompanionPaths(content)
  {
    hide PathsBelow, PathsOf, IsHeading, ExtractBacktickPath, TrimStart, Lines;
    var lines := Lines(content);
    var start := 0;
    assert lines[0..] == lines;
    while start < |lines| && lines[start] != HEADING
      invariant 0 <= start <= |lines|
      invariant PathsOf(lines[start..]) == PathsOf(lines)
    {
      PathsOfStep(lines[start..]);
      assert lines[start..][1..] == lines[start + 1..];
      start := start + 1;
    }
    PathsOfStep(lines[start..]);
    paths := [];
    if start == |lines| { return; }
    var i := start + 1;
    assert lines[start..][1..] == lines[i..];
    assert [] + PathsBelow(lines[i..]) == PathsOf(lines);
    while i < |lines|
      invariant 0 <= i <= |lines|
      invariant paths + PathsBelow(lines[i..]) == PathsOf(lines)
    {
      var line := lines[i];
      PathsBelowStep(lines[i..], paths);
      assert lines[i..][1..] == lines[i + 1..];
      i := i + 1;
      if IsHeading(line) { return; }
      var trimmed := TrimStart(line);
      if trimmed == "" { continue; }
      if !("- " <= trimmed) { continue; }
      var extracted := ExtractBacktickPath(trimmed[2..]);
      if extracted.Ok? { paths := paths + [extracted.value]; }
    }
    PathsBelowStep(lines[i..], paths);
  }

  lemma PathsOfStep(lines: seq<string>)
    ensures lines == [] ==> PathsOf(lines) == []
    ensures lines != [] ==>
      PathsOf(lines) == if lines[0] == HEADING then PathsBelow(lines[1..]) else PathsOf(lines[1..])
  {
  }

  lemma PathsBelowStep(lines: seq<string>, paths: seq<string>)
    ensures lines == [] || IsHeading(lines[0]) ==> paths + PathsBelow(lines) == paths
    ensures lines != [] && !IsHeading(lines[0]) ==>
      var trimmed := TrimStart(lines[0]);
      var now := if "- " <= trimmed && ExtractBacktickPath(trimmed[2..]).Ok?
                 then paths + [ExtractBacktickPath(trimmed[2..]).value] else paths;
      paths + PathsBelow(lines) == now + PathsBelow(lines[1..])
  {
    hide TrimStart, IsHeading, ExtractBacktickPath;
  }

  // ------------------------------------------------ the line tests, by their text

  predicate AllHashes(s: string) {
    s != "" && forall i :: 0 <= i < |s| ==> s[i] == '#'
  }

  ghost predicate SpelledHeading(line: string, hashes: string, rest: string) {
    AllHashes(hashes) && Indented(line, hashes + " ", rest)
  }

  /** A heading of any level: hashes, a space, any text. */
  lemma HeadingIff(line: string)
    ensures IsHeading(line) <==> exists hashes, rest :: SpelledHeading(line, hashes, rest)
  {
    hide TrimStart, Indented, IsWhitespace;
    assert !IsWhitespace('#') by { HashIsNoWhitespace(); }
    if IsHeading(line) {
      var trimmed := TrimStart(line);
      var n := LeadingHashes(trimmed);
      var hashes, rest := trimmed[..n], trimmed[n + 1..];
      OnlyHashes(trimmed);
      assert trimmed == hashes + " " + rest;
      IndentedIff(line, hashes + " ", rest);
      assert SpelledHeading(line, hashes, rest);
    }
    forall hashes, rest | SpelledHeading(line, hashes, rest) ensures IsHeading(line) {
      IndentedIff(line, hashes + " ", rest);
      HashesCounted(hashes, " " + rest);
      assert hashes + " " + rest == hashes + (" " + rest);
      assert (hashes + (" " + rest))[|hashes|..] == " " + rest;
    }
  }

  lemma HashIsNoWhitespace()
    ensures !IsWhitespace('#')
  {
  }

  lemma {:induction false} OnlyHashes(s: string)
    ensures forall i :: 0 <= i < LeadingHashes(s) ==> s[i] == '#'
  {
    if s != "" && s[0] == '#' { OnlyHashes(s[1..]); }
  }

  lemma {:induction false} HashesCounted(hashes: string, s: string)
    requires (forall i :: 0 <= i < |hashes| ==> hashes[i] == '#') && (s != "" ==> s[0] != '#')
    ensures LeadingHashes(hashes + s) == |hashes|
  {
    if hashes == "" {
      assert hashes + s == s;
    } else {
      HashesCounted(hashes[1..], s);
      assert (hashes + s)[1..] == hashes[1..] + s;
    }
  }

  /** A normalised path is the written one without its leading slashes. */
  lemma {:induction false} NormalizeSplits(raw: string) returns (slashes: string)
    ensures (forall i :: 0 <= i < |slashes| ==> slashes[i] == '/') && raw == slashes + Normalize(raw)
    ensures Normalize(raw) != "" ==> Normalize(raw)[0] != '/'
  {
    if raw != "" && raw[0] == '/' {
      var more := NormalizeSplits(raw[1..]);
      slashes := "/" + more;
      assert raw == "/" + (more + Normalize(raw[1..]));
    } else {
      slashes := "";
    }
  }

  /** A non-empty text between the only two backticks of the line. */
  ghost predicate SpelledPath(body: string, a: string, raw: string, b: string) {
    raw != "" && '`' !in a && '`' !in raw && '`' !in b && body == a + "`" + raw + "`" + b
  }

  lemma BacktickPathIff(body: string, path: string)
    ensures ExtractBacktickPath(body) == Ok(path) <==>
      exists a, raw, b :: SpelledPath(body, a, raw, b) && path == Normalize(raw)
  {
    hide Normalize, ExtractBacktickPath, SpelledPath;
    if ExtractBacktickPath(body) == Ok(path) { var a, raw, b := PathSpelled(body, path); }
    forall a, raw, b | SpelledPath(body, a, raw, b) && path == Normalize(raw)
      ensures ExtractBacktickPath(body) == Ok(path)
    {
      PathExtracted(body, a, raw, b);
    }
  }

  lemma PathSpelled(body: string, path: string) returns (a: string, raw: string, b: string)
    requires ExtractBacktickPath(body) == Ok(path)
    ensures SpelledPath(body, a, raw, b) && path == Normalize(raw)
  {
    hide Normalize, Count, FirstIndex;
    var start := FirstIndex(body, '`');
    var rest := body[start + 1..];
    var end := FirstIndex(rest, '`');
    a, raw, b := body[..start], rest[..end], rest[end + 1..];
    assert rest == raw + "`" + b;
    assert body == a + "`" + rest;
    TwoBackticks(a, raw, b);
    CountAbsent(a, '`');
    CountAbsent(raw, '`');
    NoneLeft(b);
  }

  lemma PathExtracted(body: string, a: string, raw: string, b: string)
    requires SpelledPath(body, a, raw, b)
    ensures ExtractBacktickPath(body) == Ok(Normalize(raw))
  {
    hide Normalize, Count;
    var rest := raw + "`" + b;
    assert body == a + ['`'] + rest;
    TwoBackticks(a, raw, b);
    CountAbsent(a, '`');
    CountAbsent(raw, '`');
    CountAbsent(b, '`');
    FirstIndexAt(a, '`', rest);
    FirstIndexAt(raw, '`', b);
    assert rest == raw + ['`'] + b;
    assert body[|a| + 1..] == rest && rest[..|raw|] == raw;
  }

  lemma TwoBackticks(a: string, raw: string, b: string)
    ensures Count(a + "`" + (raw + "`" + b), '`') == Count(a, '`') + Count(raw, '`') + Count(b, '`') + 2
  {
    hide Count;
    var rest := raw + "`" + b;
    assert a + "`" + rest == a + ("`" + rest) && rest == raw + ("`" + b);
    CountConcat(a, "`" + rest, '`');
    CountConcat("`", rest, '`');
    CountConcat(raw, "`" + b, '`');
    CountConcat("`", b, '`');
    OneBacktick();
  }

  lemma OneBacktick()
    ensures Count("`", '`') == 1
  {
  }

  lemma {:induction false} NoneLeft(s: string)
    ensures Count(s, '`') == 0 ==> '`' !in s
  {
    if s != "" {
      NoneLeft(s[1..]);
      assert s == [s[0]] + s[1..];
    }
  }

  // ----------------------------------------------------------------- round trip

  /** A path a bullet can carry. */
  predicate Listable(path: string) {
    path != "" && '`' !in path && '\n' !in path
  }

  function Bullet(path: string): string {
    "- `" + path + "`"
  }

  function Bullets(paths: seq<string>): seq<string> {
    if paths == [] then [] else [Bullet(paths[0])] + Bullets(paths[1..])
  }

  function Normalized(paths: seq<string>): seq<string> {
    if paths == [] then [] else [Normalize(paths[0])] + Normalized(paths[1..])
  }

  lemma {:induction false} CountConcat(a: string, b: string, c: char)
    ensures Count(a + b, c) == Count(a, c) + Count(b, c)
  {
    if a == "" {
      assert a + b == b;
    } else {
      CountConcat(a[1..], b, c);
      assert (a + b)[1..] == a[1..] + b;
    }
  }

  lemma {:induction false} CountAbsent(s: string, c: char)
    requires c !in s
    ensures Count(s, c) == 0
  {
    if s != "" { CountAbsent(s[1..], c); }
  }

  lemma BulletReadsBack(path: string)
    requires Listable(path)
    ensures TrimStart(Bullet(path)) == Bullet(path) && !IsHeading(Bullet(path))
    ensures "- " <= Bullet(path) && ExtractBacktickPath(Bullet(path)[2..]) == Ok(Normalize(path))
    ensures Printable(Bullet(path)) && Bullet(path) != HEADING
  {
    hide Normalize, Count, FirstIndex;
    var line, body := Bullet(path), "`" + (path + "`");
    assert line == "- " + body;
    assert line[2..] == body;
    BackticksAround(path);
    BulletIsNoHeading(line);
    assert line[|line| - 1] == '`' && line[0] == '-';
  }

  lemma BulletIsNoHeading(line: string)
    requires "- " <= line
    ensures TrimStart(line) == line && !IsHeading(line)
  {
    assert line[0] == '-';
  }

  lemma BackticksAround(path: string)
    requires '`' !in path
    ensures var body := "`" + (path + "`");
            && Count(body, '`') == 2 && FirstIndex(body, '`') == 0 && body[1..] == path + "`"
            && FirstIndex(path + "`", '`') == |path| && (path + "`")[..|path|] == path
  {
    CountConcat("`", path + "`", '`');
    CountConcat(path, "`", '`');
    CountAbsent(path, '`');
    assert path + ['`'] + "" == path + "`";
    FirstIndexAt(path, '`', "");
  }

  lemma PathsBelowBullet(path: string, rest: seq<string>)
    requires Listable(path)
    ensures PathsBelow([Bullet(path)] + rest) == [Normalize(path)] + PathsBelow(rest)
  {
    hide Bullet, IsHeading, ExtractBacktickPath, Normalize, TrimStart;
    BulletReadsBack(path);
    assert ([Bullet(path)] + rest)[1..] == rest;
  }

  lemma {:induction false} BulletsReadBack(paths: seq<string>, trailer: seq<string>)
    requires forall i :: 0 <= i < |paths| ==> Listable(paths[i])
    requires trailer != [] ==> IsHeading(trailer[0])
    ensures PathsBelow(Bullets(paths) + trailer) == Normalized(paths)
  {
    hide Bullet, IsHeading, ExtractBacktickPath, Normalize, TrimStart;
    if paths == [] {
      assert Bullets(paths) + trailer == trailer;
    } else {
      hide PathsBelow;
      PathsBelowBullet(paths[0], Bullets(paths[1..]) + trailer);
      BulletsReadBack(paths[1..], trailer);
      assert Bullets(paths) + trailer == [Bullet(paths[0])] + (Bullets(paths[1..]) + trailer);
    }
  }

  /** The path a line lists: behind white space, a bullet and a single backticked path. */
  ghost predicate ListsPath(line: string, path: string) {
    exists body :: Indented(line, "- ", body) && ExtractBacktickPath(body) == Ok(path)
  }

  /** Line by line: what lists a path adds it, any other line but a heading is skipped. */
  lemma PathsLineByLine(line: string, rest: seq<string>, path: string)
    requires !IsHeading(line)
    ensures ListsPath(line, path) ==> PathsBelow([line] + rest) == [path] + PathsBelow(rest)
    ensures (forall p :: !ListsPath(line, p)) ==> PathsBelow([line] + rest) == PathsBelow(rest)
  {
    hide IsHeading, ExtractBacktickPath, TrimStart, Indented;
    assert ([line] + rest)[1..] == rest;
    forall body ensures Indented(line, "- ", body) <==> TrimStart(line) == "- " + body {
      IndentedIff(line, "- ", body);
    }
    assert forall body: string :: ("- " + body)[2..] == body;
    var trimmed := TrimStart(line);
    if "- " <= trimmed && ExtractBacktickPath(trimmed[2..]).Ok? {
      assert trimmed == "- " + trimmed[2..];
      assert ListsPath(line, ExtractBacktickPath(trimmed[2..]).value);
    }
  }

  lemma {:induction false} HeadingFound(preamble: seq<string>, rest: seq<string>)
    requires HEADING !in preamble
    ensures PathsOf(preamble + [HEADING] + rest) == PathsBelow(rest)
  {
    hide PathsBelow;
    var lines := preamble + [HEADING] + rest;
    if preamble == [] {
      assert lines[0] == HEADING && lines[1..] == rest;
    } else {
      assert lines[0] == preamble[0] && lines[1..] == preamble[1..] + [HEADING] + rest;
      assert preamble[0] in preamble;
      HeadingFound(preamble[1..], rest);
    }
  }

  /** A printed section reads back as the listed paths, leading slashes stripped. */
  lemma CompanionsRoundTrip(preamble: seq<string>, paths: seq<string>, trailer: seq<string>)
    requires AllPrintable(preamble) && HEADING !in preamble
    requires forall i :: 0 <= i < |paths| ==> Listable(paths[i])
    requires AllPrintable(trailer) && (trailer != [] ==> IsHeading(trailer[0]))
    ensures CompanionPaths(Unlines(preamble + ["## Companions"] + (Bullets(paths) + trailer))) == Normalized(paths)
  {
    hide IsHeading, PathsOf, PathsBelow;
    var lines := preamble + [HEADING] + (Bullets(paths) + trailer);
    BulletsPrintable(paths);
    LinesOfUnlines(lines);
    HeadingFound(preamble, Bullets(paths) + trailer);
    BulletsReadBack(paths, trailer);
  }

  lemma {:induction false} BulletsPrintable(paths: seq<string>)
    requires forall i :: 0 <= i < |paths| ==> Listable(paths[i])
    ensures AllPrintable(Bullets(paths))
  {
    hide Bullet;
    if paths != [] {
      BulletReadsBack(paths[0]);
      BulletsPrintable(paths[1..]);
    }
  }
}
