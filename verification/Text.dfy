/** The Rust string operations the Markdown parsers are built from. */
module Text {
  import opened Prelude

  /** The Unicode `White_Space` property, as `char::is_whitespace` tests it. */
  predicate IsWhitespace(c: char) {
    || '\U{0009}' <= c <= '\U{000D}' || c == ' ' || c == '\U{0085}' || c == '\U{00A0}'
    || c == '\U{1680}' || '\U{2000}' <= c <= '\U{200A}' || c == '\U{2028}' || c == '\U{2029}'
    || c == '\U{202F}' || c == '\U{205F}' || c == '\U{3000}'
  }

  const WHITE_SPACE := {
    0x9, 0xA, 0xB, 0xC, 0xD, 0x20, 0x85, 0xA0, 0x1680, 0x2000, 0x2001, 0x2002, 0x2003, 0x2004, 0x2005, 0x2006,
    0x2007, 0x2008, 0x2009, 0x200A, 0x2028, 0x2029, 0x202F, 0x205F, 0x3000
  }

  /** The 25 code points of the Unicode property. */
  lemma WhitespaceTable(c: char)
    ensures IsWhitespace(c) <==> c as int in WHITE_SPACE
  {
  }

  function TrimStart(s: string): string {
    if s != "" && IsWhitespace(s[0]) then TrimStart(s[1..]) else s
  }

  function TrimEnd(s: string): string {
    if s != "" && IsWhitespace(s[|s| - 1]) then TrimEnd(s[..|s| - 1]) else s
  }

  function Trim(s: string): string {
    TrimEnd(TrimStart(s))
  }

  predicate Trimmed(s: string) {
    s != "" ==> !IsWhitespace(s[0]) && !IsWhitespace(s[|s| - 1])
  }

  predicate StartsWithWhitespace(s: string) {
    s != "" && IsWhitespace(s[0])
  }

  predicate AllWhitespace(s: string) {
    forall i :: 0 <= i < |s| ==> IsWhitespace(s[i])
  }

  lemma {:induction false} TrimStartOver(spaces: string, s: string)
    requires AllWhitespace(spaces) && s != "" && !IsWhitespace(s[0])
    ensures TrimStart(spaces + s) == s
  {
    hide IsWhitespace;
    if spaces == "" {
      assert spaces + s == s;
    } else {
      TrimStartOver(spaces[1..], s);
      assert (spaces + s)[1..] == spaces[1..] + s;
    }
  }

  lemma {:induction false} TrimStartSplits(s: string) returns (spaces: string)
    ensures AllWhitespace(spaces) && s == spaces + TrimStart(s)
    ensures TrimStart(s) != "" ==> !IsWhitespace(TrimStart(s)[0])
  {
    hide IsWhitespace;
    if s != "" && IsWhitespace(s[0]) {
      var more := TrimStartSplits(s[1..]);
      spaces := [s[0]] + more;
      assert s == [s[0]] + (more + TrimStart(s[1..]));
    } else {
      spaces := "";
    }
  }

  /** The other end: what is cut is white space, and all of it. */
  lemma {:induction false} TrimEndSplits(s: string) returns (spaces: string)
    ensures AllWhitespace(spaces) && s == TrimEnd(s) + spaces
    ensures TrimEnd(s) != "" ==> !IsWhitespace(TrimEnd(s)[|TrimEnd(s)| - 1])
  {
    hide IsWhitespace;
    if s != "" && IsWhitespace(s[|s| - 1]) {
      var more := TrimEndSplits(s[..|s| - 1]);
      spaces := more + [s[|s| - 1]];
      assert s == (TrimEnd(s) + more) + [s[|s| - 1]];
    } else {
      spaces := "";
    }
  }

  /** Trimming cuts white space at both ends and leaves none there. */
  lemma TrimSplits(s: string) returns (before: string, after: string)
    ensures AllWhitespace(before) && AllWhitespace(after) && s == before + Trim(s) + after && Trimmed(Trim(s))
  {
    before := TrimStartSplits(s);
    after := TrimEndSplits(TrimStart(s));
    assert Trim(s) != "" ==> Trim(s)[0] == TrimStart(s)[0];
  }

  /** White space, then `p`, then `rest`. */
  ghost predicate Indented(line: string, p: string, rest: string) {
    exists spaces :: AllWhitespace(spaces) && line == spaces + p + rest
  }

  lemma IndentedIff(line: string, p: string, rest: string)
    requires p != "" && !IsWhitespace(p[0])
    ensures Indented(line, p, rest) <==> TrimStart(line) == p + rest
  {
    hide IsWhitespace, TrimStart;
    if Indented(line, p, rest) {
      var spaces :| AllWhitespace(spaces) && line == spaces + p + rest;
      assert line == spaces + (p + rest);
      TrimStartOver(spaces, p + rest);
    }
    var spaces := TrimStartSplits(line);
    if TrimStart(line) == p + rest {
      assert line == spaces + p + rest;
    }
  }

  lemma TrimSpaced(s: string)
    requires Trimmed(s)
    ensures Trim(s) == s && Trim(" " + s) == s
  {
    assert (" " + s)[1..] == s;
    assert TrimStart(" " + s) == TrimStart(s) == s;
  }

  // -------------------------------------------------------------------- lines

  /** Index of the first `c` in `s`, or `|s|`. */
  function FirstIndex(s: string, c: char): (i: nat)
    ensures i <= |s| && c !in s[..i]
    ensures i < |s| ==> s[i] == c
  {
    if s == "" || s[0] == c then 0 else
      var i := 1 + FirstIndex(s[1..], c);
      assert s[..i] == [s[0]] + s[1..][..i - 1];
      i
  }

  /** Rust's `str::split_once`. */
  function SplitOnce(s: string, c: char): Option<(string, string)> {
    var i := FirstIndex(s, c);
    if i == |s| then None else Some((s[..i], s[i + 1..]))
  }

  lemma {:induction false} FirstIndexAt(a: string, c: char, b: string)
    requires c !in a
    ensures FirstIndex(a + [c] + b, c) == |a|
  {
    if a != "" {
      FirstIndexAt(a[1..], c, b);
      assert (a + [c] + b)[1..] == a[1..] + [c] + b;
    }
  }

  lemma FirstIndexMissing(a: string, c: char)
    requires c !in a
    ensures FirstIndex(a, c) == |a|
  {
  }

  function StripCr(line: string): string {
    if line != "" && line[|line| - 1] == '\r' then line[..|line| - 1] else line
  }

  /** Rust's `str::lines`: a line loses its `\n` and one `\r` before it; the empty
      piece after a final `\n` is not a line. */
  function Lines(s: string): seq<string> {
    var i := FirstIndex(s, '\n');
    if s == "" then []
    else if i == |s| then [s]
    else [StripCr(s[..i])] + Lines(s[i + 1..])
  }

  /** A line that survives printing: no `\n`, and no `\r` where `lines` would eat it. */
  predicate Printable(line: string) {
    '\n' !in line && (line != "" ==> line[|line| - 1] != '\r')
  }

  predicate AllPrintable(lines: seq<string>) {
    forall i :: 0 <= i < |lines| ==> Printable(lines[i])
  }

  /** Every line followed by `\n`. */
  function Unlines(lines: seq<string>): string {
    if lines == [] then "" else lines[0] + "\n" + Unlines(lines[1..])
  }

  /** A line as stored, ended by `\r\n` or `\n`. */
  datatype Ended = Ended(text: string, crlf: bool)

  function EndedText(lines: seq<Ended>): string {
    if lines == [] then ""
    else lines[0].text + (if lines[0].crlf then "\r\n" else "\n") + EndedText(lines[1..])
  }

  function TextsOf(lines: seq<Ended>): seq<string> {
    if lines == [] then [] else [lines[0].text] + TextsOf(lines[1..])
  }

  /** Any lines read back, whatever they end in; a last line without an ending is a line if
      it is not empty, and keeps its `\r`. */
  lemma {:induction false} LinesReadBack(lines: seq<Ended>, last: string)
    requires forall i :: 0 <= i < |lines| ==> '\n' !in lines[i].text && (lines[i].crlf || Printable(lines[i].text))
    requires '\n' !in last
    ensures Lines(EndedText(lines) + last) == TextsOf(lines) + (if last == "" then [] else [last])
  {
    hide Lines, StripCr, Printable;
    if lines == [] {
      assert EndedText(lines) + last == last && TextsOf(lines) + [last] == [last];
      LastLine(last);
    } else {
      var line, rest := lines[0], EndedText(lines[1..]) + last;
      var raw := line.text + (if line.crlf then "\r" else "");
      assert EndedText(lines) + last == raw + "\n" + rest;
      FirstLine(raw, rest);
      CrStripped(line);
      LinesReadBack(lines[1..], last);
      var end := if last == "" then [] else [last];
      assert [line.text] + (TextsOf(lines[1..]) + end) == TextsOf(lines) + end;
    }
  }

  lemma FirstLine(raw: string, rest: string)
    requires '\n' !in raw
    ensures Lines(raw + "\n" + rest) == [StripCr(raw)] + Lines(rest)
  {
    hide StripCr;
    var s := raw + ['\n'] + rest;
    assert raw + "\n" + rest == s;
    FirstIndexAt(raw, '\n', rest);
    assert s[..|raw|] == raw && s[|raw| + 1..] == rest;
  }

  lemma LastLine(last: string)
    requires '\n' !in last
    ensures Lines(last) == if last == "" then [] else [last]
  {
    FirstIndexMissing(last, '\n');
  }

  lemma CrStripped(line: Ended)
    requires line.crlf || Printable(line.text)
    ensures StripCr(line.text + (if line.crlf then "\r" else "")) == line.text
  {
    if line.crlf {
      var raw := line.text + "\r";
      assert raw[..|raw| - 1] == line.text;
    } else {
      assert line.text + "" == line.text;
    }
  }

  lemma {:induction false} LinesOfUnlines(lines: seq<string>)
    requires AllPrintable(lines)
    ensures Lines(Unlines(lines)) == lines
  {
    hide Lines, StripCr;
    if lines == [] {
      LastLine("");
    } else {
      LinesOfUnlines(lines[1..]);
      FirstLine(lines[0], Unlines(lines[1..]));
      CrStripped(Ended(lines[0], false));
      assert lines[0] + "" == lines[0];
    }
  }

  /** Rust's `[&str]::join("\n")`. */
  function Join(lines: seq<string>): string {
    if lines == [] then ""
    else if |lines| == 1 then lines[0]
    else lines[0] + "\n" + Join(lines[1..])
  }

  /** Joining puts a line feed between the lines, and none at the end. */
  lemma {:induction false} JoinIsUnlines(lines: seq<string>)
    requires lines != []
    ensures Join(lines) + "\n" == Unlines(lines)
  {
    if |lines| == 1 {
      var none: seq<string> := [];
      assert lines[1..] == none && Unlines(none) == "";
      assert lines[0] + "\n" + "" == lines[0] + "\n";
    } else {
      JoinIsUnlines(lines[1..]);
      assert Join(lines) + "\n" == lines[0] + "\n" + (Join(lines[1..]) + "\n");
    }
  }

  // --------------------------------------------------------------- file names

  /** Index of the last `c` in `s`, or -1. */
  function LastIndex(s: string, c: char): (i: int)
    ensures -1 <= i < |s|
    ensures i >= 0 ==> s[i] == c
    ensures forall k :: i < k < |s| ==> s[k] != c
  {
    if s == "" then -1
    else if s[|s| - 1] == c then |s| - 1
    else LastIndex(s[..|s| - 1], c)
  }

  lemma {:induction false} LastIndexAt(a: string, c: char, b: string)
    requires c !in b
    ensures LastIndex(a + [c] + b, c) == |a|
  {
    if b != "" {
      var init := b[..|b| - 1];
      LastIndexAt(a, c, init);
      assert (a + [c] + b)[..|a| + |b|] == a + [c] + init;
    }
  }

  /** Rust's `Path::file_stem` of a plain file name. */
  function FileStem(name: string): string {
    var dot := LastIndex(name, '.');
    if dot <= 0 || name == ".." then name else name[..dot]
  }

  /** Rust's `Path::extension` of a plain file name. */
  function Extension(name: string): Option<string> {
    var dot := LastIndex(name, '.');
    if dot <= 0 || name == ".." then None else Some(name[dot + 1..])
  }

  /** A name without a dot, or with its only dot in front, is all stem. */
  lemma NoExtension(name: string)
    requires '.' !in name
    ensures FileStem(name) == name && Extension(name) == None
    ensures FileStem("." + name) == "." + name && Extension("." + name) == None
  {
    NoIndex(name, '.');
    assert "." + name == "" + ['.'] + name;
    LastIndexAt("", '.', name);
  }

  /** Any other name splits at its last dot, except the parent directory. */
  lemma StemAndExtension(stem: string, extension: string)
    requires stem != "" && '.' !in extension && stem + "." + extension != ".."
    ensures FileStem(stem + "." + extension) == stem && Extension(stem + "." + extension) == Some(extension)
  {
    var name := stem + ['.'] + extension;
    assert stem + "." + extension == name;
    LastIndexAt(stem, '.', extension);
    assert name[..|stem|] == stem && name[|stem| + 1..] == extension;
  }

  lemma ParentHasNoExtension()
    ensures FileStem("..") == ".." && Extension("..") == None
  {
  }

  lemma NoIndex(s: string, c: char)
    requires c !in s
    ensures LastIndex(s, c) == -1
  {
  }
}
