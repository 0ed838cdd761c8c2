/** The `## Success Criteria` checklist parser: fences, checkboxes and the links
    that annotate them. */
module Checklist {
  import opened Prelude
  import opened Text

  datatype LinkKind = Verify | Judge

  datatype Link = Link(kind: LinkKind, target: string)

  /** One row of the checklist; `link.None?` is the source's annotation kind `None`. */
  datatype Row = Row(criterion: string, checked: bool, link: Option<Link>)

  // ----------------------------------------------------------- line classifiers

  predicate IsFence(line: string) {
    "```" <= TrimStart(line)
  }

  function TrimSpaces(s: string): string {
    if s != "" && s[0] == ' ' then TrimSpaces(s[1..]) else s
  }

  predicate IsSuccessCriteriaHeading(line: string) {
    var stripped := TrimStart(line);
    "##" <= stripped &&
      var rest := TrimSpaces(stripped[2..]);
      "Success Criteria" <= TrimStart(rest) || "Success Criteria" <= rest
  }

  predicate IsOtherH2(line: string) {
    var stripped := TrimStart(line);
    "##" <= stripped &&
      var rest := stripped[2..];
      !("#" <= rest) && !("Success Criteria" <= TrimSpaces(rest))
  }

  function ParseCheckbox(line: string): Option<(bool, string)> {
    var trimmed := TrimStart(line);
    if !("- [" <= trimmed) then None
    else
      var rest := trimmed[3..];
      if |rest| < 2 || rest[1] != ']' then None
      else
        var afterClose := rest[2..];
        var text := if " " <= afterClose then afterClose[1..] else afterClose;
        if rest[0] == ' ' then Some((false, text))
        else if rest[0] == 'x' || rest[0] == 'X' then Some((true, text))
        else None
  }

  function ParseAnnotationLine(line: string): Option<Link> {
    var trimmed := TrimStart(line);
    if "[verify](" <= trimmed && Capture(trimmed[9..], 1).Some? then
      Some(Link(Verify, Capture(trimmed[9..], 1).value))
    else if "[judge](" <= trimmed && Capture(trimmed[8..], 1).Some? then
      Some(Link(Judge, Capture(trimmed[8..], 1).value))
    else None
  }

  // ---------------------------------------------------------- balanced capture

  /** What stands before the `)` that closes `depth` open parentheses. */
  function Capture(rest: string, depth: nat): Option<string>
    requires depth >= 1
  {
    if rest == "" then None
    else if rest[0] == ')' && depth == 1 then Some("")
    else
      var depth' := if rest[0] == '(' then depth + 1 else if rest[0] == ')' then depth - 1 else depth;
      match Capture(rest[1..], depth')
      case None => None
      case Some(tail) => Some([rest[0]] + tail)
  }

  /** Opening minus closing parentheses. */
  function Depth(s: string): int {
    if s == "" then 0
    else Depth(s[..|s| - 1]) + (if s[|s| - 1] == '(' then 1 else if s[|s| - 1] == ')' then -1 else 0)
  }

  ghost predicate Balanced(s: string) {
    Depth(s) == 0 && forall k :: 0 <= k <= |s| ==> Depth(s[..k]) >= 0
  }

  lemma {:induction false} DepthCons(c: char, s: string)
    ensures Depth([c] + s) == Depth([c]) + Depth(s)
  {
    if s == "" {
      assert [c] + s == [c];
    } else {
      DepthCons(c, s[..|s| - 1]);
      assert ([c] + s)[..|s|] == [c] + s[..|s| - 1];
    }
  }

  lemma {:induction false} CaptureDepth(rest: string, depth: nat)
    requires depth >= 1
    ensures match Capture(rest, depth)
            case None => forall k :: 0 <= k <= |rest| ==> depth + Depth(rest[..k]) >= 1
            case Some(out) =>
              && out + ")" <= rest
              && depth + Depth(out) == 1
              && forall k :: 0 <= k <= |out| ==> depth + Depth(out[..k]) >= 1
  {
    if rest != "" && !(rest[0] == ')' && depth == 1) {
      var c, tail := rest[0], rest[1..];
      var depth' := if c == '(' then depth + 1 else if c == ')' then depth - 1 else depth;
      assert depth' == depth + Depth([c]) by { assert [c][..0] == ""; }
      CaptureDepth(tail, depth');
      assert rest == [c] + tail;
      match Capture(tail, depth') {
        case None =>
          forall k | 0 <= k <= |rest| ensures depth + Depth(rest[..k]) >= 1 { PrefixDepth(c, tail, k); }
        case Some(out) =>
          assert ([c] + out) + ")" == [c] + (out + ")");
          DepthCons(c, out);
          forall k | 0 <= k <= |out| + 1 ensures depth + Depth(([c] + out)[..k]) >= 1 { PrefixDepth(c, out, k); }
      }
    }
  }

  lemma PrefixDepth(c: char, s: string, k: nat)
    requires k <= |s| + 1
    ensures Depth(([c] + s)[..k]) == if k == 0 then 0 else Depth([c]) + Depth(s[..k - 1])
  {
    if k > 0 {
      assert ([c] + s)[..k] == [c] + s[..k - 1];
      DepthCons(c, s[..k - 1]);
    }
  }

  /** The captured target is parenthesis-balanced, and it is captured iff some balanced
      text is followed by `)`; there is only one such text. */
  lemma CaptureIsBalanced(rest: string)
    ensures Capture(rest, 1).Some? ==> Balanced(Capture(rest, 1).value) && Capture(rest, 1).value + ")" <= rest
    ensures forall target: string :: Balanced(target) && target + ")" <= rest ==> Capture(rest, 1) == Some(target)
  {
    CaptureDepth(rest, 1);
    forall target: string | Balanced(target) && target + ")" <= rest ensures Capture(rest, 1) == Some(target) {
      assert rest[..|target|] == target && rest[|target|] == ')';
      var closed := rest[..|target| + 1];
      assert closed[..|target|] == target;
      assert Depth(closed) == -1;
      if Capture(rest, 1).Some? {
        var out := Capture(rest, 1).value;
        OnlyOneCapture(rest, out, target);
      }
    }
  }

  lemma OnlyOneCapture(rest: string, a: string, b: string)
    requires Balanced(a) && a + ")" <= rest && Balanced(b) && b + ")" <= rest
    ensures a == b
  {
    if |a| < |b| { NoLongerCapture(rest, a, b); }
    if |b| < |a| { NoLongerCapture(rest, b, a); }
    assert rest[..|a|] == a && rest[..|b|] == b;
  }

  lemma NoLongerCapture(rest: string, a: string, b: string)
    requires Balanced(a) && a + ")" <= rest && b + ")" <= rest && |a| < |b|
    ensures !Balanced(b)
  {
    var k := |a| + 1;
    assert rest[..|a|] == a && rest[|a|] == ')';
    assert b[..k] == rest[..k] && b[..k][..|a|] == a;
    assert Depth(b[..k]) == -1;
  }

  /** What is still to be captured goes behind `out`. */
  predicate CaptureFrom(rest: string, out: string, tail: string, depth: nat)
    requires depth >= 1
  {
    match Capture(tail, depth)
    case None => Capture(rest, 1) == None
    case Some(more) => Capture(rest, 1) == Some(out + more)
  }

  lemma CaptureStep(rest: string, out: string, ch: char, tail: string, depth: nat)
    requires depth >= 1 && CaptureFrom(rest, out, [ch] + tail, depth)
    ensures var depth' := if ch == '(' then depth + 1 else if ch == ')' then depth - 1 else depth;
            if depth' == 0 then Capture(rest, 1) == Some(out) else CaptureFrom(rest, out + [ch], tail, depth')
  {
    var all := [ch] + tail;
    assert all[0] == ch && all[1..] == tail;
    var depth' := if ch == '(' then depth + 1 else if ch == ')' then depth - 1 else depth;
    if depth' == 0 {
      assert out + "" == out;
    } else if Capture(tail, depth').Some? {
      var more := Capture(tail, depth').value;
      assert out + ([ch] + more) == (out + [ch]) + more;
    }
  }

  lemma CaptureStarts(rest: string)
    ensures CaptureFrom(rest, "", rest, 1)
    ensures forall out: string, depth: nat ::
      depth >= 1 && CaptureFrom(rest, out, "", depth) ==> Capture(rest, 1) == None
  {
    if Capture(rest, 1).Some? { assert "" + Capture(rest, 1).value == Capture(rest, 1).value; }
  }

  method CaptureBalanced(rest: string) returns (r: Option<string>)
    ensures r == Capture(rest, 1)
    ensures r.Some? <==> exists target: string :: Balanced(target) && target + ")" <= rest
    ensures r.Some? ==> Balanced(r.value) && r.value + ")" <= rest
  {
    CaptureIsBalanced(rest);
    CaptureStarts(rest);
    hide *;
    var depth, out := 1, "";
    assert rest[0..] == rest;
    for i := 0 to |rest|
      invariant depth >= 1 && CaptureFrom(rest, out, rest[i..], depth)
    {
      var ch := rest[i];
      assert rest[i..] == [ch] + rest[i + 1..];
      CaptureStep(rest, out, ch, rest[i + 1..], depth);
      if ch == '(' {
        depth := depth + 1;
      } else if ch == ')' {
        depth := depth - 1;
        if depth == 0 { return Some(out); }
      }
      out := out + [ch];
    }
    assert rest[|rest|..] == "";
    r := None;
  }

  // ------------------------------------------------- the classifiers, by their text

  lemma FenceIff(line: string)
    ensures IsFence(line) <==> exists rest :: Indented(line, "```", rest)
  {
    hide TrimStart, Indented;
    if IsFence(line) {
      var rest := TrimStart(line)[3..];
      assert TrimStart(line) == "```" + rest;
      IndentedIff(line, "```", rest);
    }
    forall rest ensures Indented(line, "```", rest) ==> IsFence(line) {
      IndentedIff(line, "```", rest);
    }
  }

  /** `- [`, one of three marks, `]`, perhaps a space, and the text. */
  ghost predicate SpelledCheckbox(line: string, mark: char, after: string, text: string) {
    && mark in " xX" && Indented(line, "- [" + [mark] + "]", after)
    && (after == " " + text || (after == text && !(" " <= text)))
  }

  /** A checkbox is checked if its mark is an x in either case. */
  lemma CheckboxIff(line: string, checked: bool, text: string)
    ensures ParseCheckbox(line) == Some((checked, text)) <==>
      exists mark, after :: SpelledCheckbox(line, mark, after, text) && (checked <==> mark != ' ')
  {
    hide TrimStart, Indented;
    if ParseCheckbox(line) == Some((checked, text)) {
      var trimmed := TrimStart(line);
      var mark, after := trimmed[3], trimmed[5..];
      assert trimmed[3..][0] == mark && trimmed[3..][1] == trimmed[4] && trimmed[3..][2..] == after;
      assert trimmed == "- [" + [mark] + "]" + after;
      IndentedIff(line, "- [" + [mark] + "]", after);
      if " " <= after { assert after == " " + text; }
      assert SpelledCheckbox(line, mark, after, text);
    }
    forall mark, after | SpelledCheckbox(line, mark, after, text) && (checked <==> mark != ' ')
      ensures ParseCheckbox(line) == Some((checked, text))
    {
      CheckboxRead(line, mark, after, text);
    }
  }

  lemma CheckboxRead(line: string, mark: char, after: string, text: string)
    requires SpelledCheckbox(line, mark, after, text)
    ensures ParseCheckbox(line) == Some((mark != ' ', text))
  {
    hide TrimStart, Indented;
    var p := "- [" + [mark] + "]";
    IndentedIff(line, p, after);
    var trimmed := p + after;
    assert trimmed == "- [" + ([mark] + "]" + after);
    assert trimmed[3..] == [mark] + "]" + after;
    assert trimmed[3..][2..] == after;
  }

  function Opening(kind: LinkKind): string {
    match kind case Verify => "[verify](" case Judge => "[judge]("
  }

  /** `[verify](` or `[judge](`, a balanced target, `)`, and any text. */
  ghost predicate SpelledLink(line: string, link: Link, after: string) {
    Balanced(link.target) && Indented(line, Opening(link.kind), link.target + ")" + after)
  }

  lemma AnnotationIff(line: string, link: Link)
    ensures ParseAnnotationLine(line) == Some(link) <==> exists after :: SpelledLink(line, link, after)
  {
    hide ParseAnnotationLine, SpelledLink;
    if ParseAnnotationLine(line) == Some(link) { var after := LinkSpelled(line, link); }
    forall after | SpelledLink(line, link, after) ensures ParseAnnotationLine(line) == Some(link) {
      AnnotationRead(line, link, after);
    }
  }

  lemma LinkSpelled(line: string, link: Link) returns (after: string)
    requires ParseAnnotationLine(line) == Some(link)
    ensures SpelledLink(line, link, after)
  {
    hide TrimStart, Indented, Balanced, Capture;
    var trimmed, open := TrimStart(line), Opening(link.kind);
    var rest := trimmed[|open|..];
    CaptureIsBalanced(rest);
    after := rest[|link.target| + 1..];
    assert rest == link.target + ")" + after;
    assert trimmed == open + (link.target + ")" + after);
    IndentedIff(line, open, link.target + ")" + after);
  }

  lemma AnnotationRead(line: string, link: Link, after: string)
    requires SpelledLink(line, link, after)
    ensures ParseAnnotationLine(line) == Some(link)
  {
    hide TrimStart, Indented, Balanced, Capture;
    var open, rest := Opening(link.kind), link.target + ")" + after;
    IndentedIff(line, open, rest);
    CaptureIsBalanced(rest);
    assert (open + rest)[|open|..] == rest;
    assert link.target + ")" <= rest;
    assert (open + rest)[1] == open[1];
  }

  /** `##`, white space or none, `Success Criteria`, and any text. */
  ghost predicate SpelledCriteria(line: string, spaces: string, rest: string) {
    AllWhitespace(spaces) && Indented(line, "##", spaces + "Success Criteria" + rest)
  }

  lemma CriteriaHeadingIff(line: string)
    ensures IsSuccessCriteriaHeading(line) <==> exists spaces, rest :: SpelledCriteria(line, spaces, rest)
  {
    hide TrimStart, Indented, TrimSpaces;
    if IsSuccessCriteriaHeading(line) {
      var tail := TrimStart(line)[2..];
      assert TrimStart(line) == "##" + tail;
      var spaces := CriteriaBehindSpaces(tail);
      var rest := tail[|spaces| + 16..];
      assert tail == spaces + "Success Criteria" + rest;
      IndentedIff(line, "##", tail);
      assert SpelledCriteria(line, spaces, rest);
    }
    forall spaces, rest | SpelledCriteria(line, spaces, rest) ensures IsSuccessCriteriaHeading(line) {
      var tail := spaces + "Success Criteria" + rest;
      IndentedIff(line, "##", tail);
      assert ("##" + tail)[2..] == tail;
      CriteriaTrimmed(spaces, rest);
    }
  }

  lemma {:induction false} TrimSpacesSplits(s: string) returns (spaces: string)
    ensures (forall i :: 0 <= i < |spaces| ==> spaces[i] == ' ') && s == spaces + TrimSpaces(s)
    ensures TrimSpaces(s) != "" ==> TrimSpaces(s)[0] != ' '
  {
    if s != "" && s[0] == ' ' {
      var more := TrimSpacesSplits(s[1..]);
      spaces := " " + more;
      assert s == " " + (more + TrimSpaces(s[1..]));
    } else {
      spaces := "";
    }
  }

  lemma CriteriaBehindSpaces(tail: string) returns (spaces: string)
    requires var rest := TrimSpaces(tail); "Success Criteria" <= TrimStart(rest) || "Success Criteria" <= rest
    ensures AllWhitespace(spaces) && spaces + "Success Criteria" <= tail
  {
    hide TrimStart, TrimSpaces;
    var blanks := TrimSpacesSplits(tail);
    var rest := TrimSpaces(tail);
    assert AllWhitespace(blanks) by { assert IsWhitespace(' '); }
    if "Success Criteria" <= rest {
      spaces := blanks;
      assert tail == blanks + rest;
    } else {
      var more := TrimStartSplits(rest);
      spaces := blanks + more;
      assert tail == (blanks + more) + TrimStart(rest);
    }
  }

  lemma {:induction false} CriteriaTrimmed(spaces: string, rest: string)
    requires AllWhitespace(spaces)
    ensures "Success Criteria" <= TrimStart(TrimSpaces(spaces + "Success Criteria" + rest))
  {
    hide TrimStart, IsWhitespace;
    var tail := "Success Criteria" + rest;
    assert spaces + "Success Criteria" + rest == spaces + tail;
    var blanks := TrimSpacesSplits(spaces + tail);
    assert |blanks| <= |spaces| by {
      assert (spaces + tail)[|spaces|] == 'S';
      assert forall i :: 0 <= i < |blanks| ==> (spaces + tail)[i] == blanks[i];
    }
    assert TrimSpaces(spaces + tail) == (spaces + tail)[|blanks|..];
    assert (spaces + tail)[|blanks|..] == spaces[|blanks|..] + tail;
    assert !IsWhitespace('S') by { CapitalIsNoWhitespace(); }
    TrimStartOver(spaces[|blanks|..], tail);
  }

  lemma CapitalIsNoWhitespace()
    ensures !IsWhitespace('S')
  {
  }

  /** `##` that is not `###`, and no Success Criteria behind spaces. */
  lemma OtherH2Iff(line: string)
    ensures IsOtherH2(line) <==> exists rest :: Indented(line, "##", rest) && !("#" <= rest) && !BehindSpaces(rest)
  {
    hide TrimStart, Indented, BehindSpaces;
    if IsOtherH2(line) {
      var rest := TrimStart(line)[2..];
      assert TrimStart(line) == "##" + rest;
      IndentedIff(line, "##", rest);
      BehindSpacesIff(rest);
    }
    forall rest | Indented(line, "##", rest) && !("#" <= rest) && !BehindSpaces(rest) ensures IsOtherH2(line) {
      IndentedIff(line, "##", rest);
      assert ("##" + rest)[2..] == rest;
      BehindSpacesIff(rest);
    }
  }

  ghost predicate BehindSpaces(s: string) {
    exists spaces, rest ::
      (forall i :: 0 <= i < |spaces| ==> spaces[i] == ' ') && s == spaces + "Success Criteria" + rest
  }

  lemma BehindSpacesIff(s: string)
    ensures BehindSpaces(s) <==> "Success Criteria" <= TrimSpaces(s)
  {
    var blanks := TrimSpacesSplits(s);
    if "Success Criteria" <= TrimSpaces(s) {
      var rest := TrimSpaces(s)[16..];
      assert s == blanks + "Success Criteria" + rest;
    }
    forall spaces, rest
      | (forall i :: 0 <= i < |spaces| ==> spaces[i] == ' ') && s == spaces + "Success Criteria" + rest
      ensures "Success Criteria" <= TrimSpaces(s)
    {
      SpacesTrimmed(spaces, "Success Criteria" + rest);
      assert s == spaces + ("Success Criteria" + rest);
    }
  }

  lemma {:induction false} SpacesTrimmed(spaces: string, s: string)
    requires (forall i :: 0 <= i < |spaces| ==> spaces[i] == ' ') && s != "" && s[0] != ' '
    ensures TrimSpaces(spaces + s) == s
  {
    if spaces == "" {
      assert spaces + s == s;
    } else {
      SpacesTrimmed(spaces[1..], s);
      assert (spaces + s)[1..] == spaces[1..] + s;
    }
  }

  // ------------------------------------------------------- what the rows should be

  /** The lines outside fenced code blocks; `inFence` says whether one is open. */
  function Unfenced(lines: seq<string>, inFence: bool): seq<string> {
    if lines == [] then []
    else if IsFence(lines[0]) then Unfenced(lines[1..], !inFence)
    else (if inFence then [] else [lines[0]]) + Unfenced(lines[1..], inFence)
  }

  function UntilOtherH2(lines: seq<string>): seq<string> {
    if lines == [] || (!IsSuccessCriteriaHeading(lines[0]) && IsOtherH2(lines[0])) then []
    else [lines[0]] + UntilOtherH2(lines[1..])
  }

  /** The lines of the section: after the first Success Criteria heading, up to the
      first other level-2 heading. */
  function Section(lines: seq<string>): seq<string> {
    if lines == [] then []
    else if IsSuccessCriteriaHeading(lines[0]) then UntilOtherH2(lines[1..])
    else Section(lines[1..])
  }

  /** The first annotation before the next checkbox. */
  function FirstLink(lines: seq<string>): Option<Link> {
    if lines == [] || ParseCheckbox(lines[0]).Some? then None
    else if ParseAnnotationLine(lines[0]).Some? then ParseAnnotationLine(lines[0])
    else FirstLink(lines[1..])
  }

  /** One row per checkbox line, in order, each with its first link. */
  function Rows(section: seq<string>): seq<Row> {
    if section == [] then []
    else match ParseCheckbox(section[0])
      case None => Rows(section[1..])
      case Some((checked, text)) => [Row(text, checked, FirstLink(section[1..]))] + Rows(section[1..])
  }

  function Expected(body: string): seq<Row> {
    Rows(Section(Unfenced(Lines(body), false)))
  }

  // --------------------------------------------------------------- the parser

  lemma HeadingIsNoRow(line: string)
    requires IsSuccessCriteriaHeading(line)
    ensures ParseCheckbox(line).None? && ParseAnnotationLine(line).None? && !IsFence(line)
  {
    assert TrimStart(line)[0] == '#';
  }

  /** The answer the loop is heading for, from the state it is in. */
  function Answer(out: seq<Row>, inCriteria: bool, inFence: bool, pending: Option<(string, bool)>,
                  lines: seq<string>): seq<Row>
  {
    var unfenced := Unfenced(lines, inFence);
    var section := if inCriteria then UntilOtherH2(unfenced) else Section(unfenced);
    out + (if pending.Some? then [Row(pending.value.0, pending.value.1, FirstLink(section))] else [])
        + Rows(section)
  }

  method ParseBody(body: string) returns (r: Option<seq<Row>>)
    ensures r == if Expected(body) == [] then None else Some(Expected(body))
  {
    hide Unfenced, UntilOtherH2, Section, Rows, FirstLink, Answer, IsFence, IsSuccessCriteriaHeading,
      IsOtherH2, ParseCheckbox, ParseAnnotationLine, Lines;
    var lines := Lines(body);
    var out: seq<Row> := [];
    var inCriteria, inFence, sawCriteria := false, false, false;
    var pending: Option<(string, bool)> := None;
    ghost var stopped := false;
    assert Answer(out, inCriteria, inFence, pending, lines) == Expected(body) by { AnswerAtStart(body); }
    assert lines[0..] == lines;
    var i := 0;
    while i < |lines|
      invariant 0 <= i <= |lines|
      invariant pending.Some? ==> inCriteria
      invariant sawCriteria <==> out != [] || pending.Some?
      invariant !stopped ==> Answer(out, inCriteria, inFence, pending, lines[i..]) == Expected(body)
      invariant stopped ==> pending.None? && out == Expected(body)
    {
      var line := lines[i];
      i := i + 1;
      assert lines[i - 1..] == [line] + lines[i..];
      AnswerStep(out, inCriteria, inFence, pending, line, lines[i..]);
      assert out + [] == out;
      if IsFence(line) {
        inFence := !inFence;
        continue;
      }
      if inFence { continue; }
      if IsSuccessCriteriaHeading(line) {
        inCriteria := true;
        continue;
      }
      if inCriteria && IsOtherH2(line) {
        if pending.Some? {
          out := out + [Row(pending.value.0, pending.value.1, None)];
          pending := None;
        }
        stopped := true;
        break;
      }
      if !inCriteria { continue; }
      var checkbox := ParseCheckbox(line);
      if checkbox.Some? {
        if pending.Some? {
          out := out + [Row(pending.value.0, pending.value.1, None)];
        }
        pending := Some((checkbox.value.1, checkbox.value.0));
        sawCriteria := true;
        continue;
      }
      if pending.Some? {
        var link := ParseAnnotationLine(line);
        if link.Some? {
          out := out + [Row(pending.value.0, pending.value.1, link)];
          pending := None;
        }
      }
    }
    if !stopped {
      assert lines[i..] == [];
      AnswerAtEnd(out, inCriteria, inFence, pending);
      assert out + [] == out;
    }
    if pending.Some? {
      out := out + [Row(pending.value.0, pending.value.1, None)];
    }
    r := if sawCriteria then Some(out) else None;
  }

  lemma AnswerAtStart(body: string)
    ensures Answer([], false, false, None, Lines(body)) == Expected(body)
  {
    hide Unfenced, Section, Rows, Lines;
    assert [] + [] + Expected(body) == Expected(body);
  }

  lemma AnswerAtEnd(out: seq<Row>, inCriteria: bool, inFence: bool, pending: Option<(string, bool)>)
    ensures Answer(out, inCriteria, inFence, pending, [])
         == out + (if pending.Some? then [Row(pending.value.0, pending.value.1, None)] else [])
  {
  }

  /** What one line does to the answer. */
  lemma AnswerStep(out: seq<Row>, inCriteria: bool, inFence: bool, pending: Option<(string, bool)>,
                   line: string, rest: seq<string>)
    requires pending.Some? ==> inCriteria
    ensures var before := Answer(out, inCriteria, inFence, pending, [line] + rest);
            var waiting := if pending.Some? then [Row(pending.value.0, pending.value.1, None)] else [];
            if IsFence(line) then before == Answer(out, inCriteria, !inFence, pending, rest)
            else if inFence then before == Answer(out, inCriteria, inFence, pending, rest)
            else if IsSuccessCriteriaHeading(line) then before == Answer(out, true, inFence, pending, rest)
            else if !inCriteria then before == Answer(out, inCriteria, inFence, pending, rest)
            else if IsOtherH2(line) then before == out + waiting
            else match ParseCheckbox(line)
              case Some((checked, text)) =>
                before == Answer(out + waiting, inCriteria, inFence, Some((text, checked)), rest)
              case None =>
                if pending.Some? && ParseAnnotationLine(line).Some? then
                  before == Answer(out + [Row(pending.value.0, pending.value.1, ParseAnnotationLine(line))],
                                   inCriteria, inFence, None, rest)
                else before == Answer(out, inCriteria, inFence, pending, rest)
  {
    hide IsFence, IsSuccessCriteriaHeading, IsOtherH2, ParseCheckbox, ParseAnnotationLine;
    var lines := [line] + rest;
    assert lines[0] == line && lines[1..] == rest;
    var later := Unfenced(rest, inFence);
    if inFence {
      assert [] + later == later;
    } else if !IsFence(line) {
      assert Unfenced(lines, inFence) == [line] + later;
      assert ([line] + later)[1..] == later;
      if IsSuccessCriteriaHeading(line) { HeadingIsNoRow(line); }
      var section := UntilOtherH2(later);
      assert ([line] + section)[1..] == section;
    }
  }

  // ------------------------------------------------ nothing lost, nothing invented

  function CheckboxCount(lines: seq<string>): nat {
    if lines == [] then 0
    else (if ParseCheckbox(lines[0]).Some? then 1 else 0) + CheckboxCount(lines[1..])
  }

  /** The k-th checkbox line of the section, and nothing else, is the k-th row. */
  lemma {:induction false} RowOfCheckboxLine(section: seq<string>, i: nat)
    requires i < |section|
    ensures |Rows(section)| == CheckboxCount(section)
    ensures CheckboxCount(section[..i]) + (if ParseCheckbox(section[i]).Some? then 1 else 0)
         <= CheckboxCount(section)
    ensures match ParseCheckbox(section[i])
            case None => true
            case Some((checked, text)) =>
              Rows(section)[CheckboxCount(section[..i])] == Row(text, checked, FirstLink(section[i + 1..]))
  {
    hide ParseCheckbox, FirstLink;
    RowCount(section);
    if i > 0 {
      RowOfCheckboxLine(section[1..], i - 1);
      assert section[1..][..i - 1] == section[..i][1..];
      assert section[1..][i..] == section[i + 1..];
      assert section[..i][0] == section[0];
    }
  }

  lemma {:induction false} RowCount(section: seq<string>)
    ensures |Rows(section)| == CheckboxCount(section)
  {
    if section != [] { RowCount(section[1..]); }
  }

  /** A row has a link iff an annotation line comes before the next checkbox, and then
      it is the first such line. */
  lemma {:induction false} LinkIsFirstAnnotation(lines: seq<string>)
    ensures FirstLink(lines).Some? <==>
      exists i :: 0 <= i < |lines| && ParseAnnotationLine(lines[i]).Some? && CheckboxCount(lines[..i + 1]) == 0
    ensures forall i ::
      && 0 <= i < |lines| && ParseAnnotationLine(lines[i]).Some? && CheckboxCount(lines[..i + 1]) == 0
      && (forall j :: 0 <= j < i ==> ParseAnnotationLine(lines[j]).None?)
      ==> FirstLink(lines) == ParseAnnotationLine(lines[i])
  {
    hide ParseCheckbox, ParseAnnotationLine;
    if lines != [] {
      var rest := lines[1..];
      LinkIsFirstAnnotation(rest);
      forall i | 0 <= i < |lines|
        ensures CheckboxCount(lines[..i + 1]) ==
                (if ParseCheckbox(lines[0]).Some? then 1 else 0) + CheckboxCount(rest[..i])
      {
        assert lines[..i + 1][0] == lines[0] && lines[..i + 1][1..] == rest[..i];
      }
      if FirstLink(lines).Some? {
        if ParseAnnotationLine(lines[0]).Some? {
          assert rest[..0] == [];
          assert CheckboxCount(lines[..0 + 1]) == 0;
        } else {
          var i :| 0 <= i < |rest| && ParseAnnotationLine(rest[i]).Some? && CheckboxCount(rest[..i + 1]) == 0;
          assert lines[i + 1] == rest[i] && CheckboxCount(lines[..(i + 1) + 1]) == 0;
        }
      }
      forall i | 0 <= i < |lines| && ParseAnnotationLine(lines[i]).Some? && CheckboxCount(lines[..i + 1]) == 0
        ensures FirstLink(lines).Some?
        ensures (forall j :: 0 <= j < i ==> ParseAnnotationLine(lines[j]).None?)
                ==> FirstLink(lines) == ParseAnnotationLine(lines[i])
      {
        if i > 0 {
          assert rest[i - 1] == lines[i] && CheckboxCount(rest[..(i - 1) + 1]) == 0;
          assert forall j :: 0 <= j < i - 1 ==> rest[j] == lines[j + 1];
        }
      }
    }
  }

  // ------------------------------------------------- what the documentation says

  predicate IsBlank(line: string) {
    TrimStart(line) == ""
  }

  /** The documented pairing: the link on the next non-blank line, if there is one. */
  function DocLink(lines: seq<string>): Option<Link> {
    if lines == [] then None
    else if IsBlank(lines[0]) then DocLink(lines[1..])
    else ParseAnnotationLine(lines[0])
  }

  function DocRows(section: seq<string>): seq<Row> {
    if section == [] then []
    else match ParseCheckbox(section[0])
      case None => DocRows(section[1..])
      case Some((checked, text)) => [Row(text, checked, DocLink(section[1..]))] + DocRows(section[1..])
  }

  lemma BlankIsNothing(line: string)
    ensures IsBlank(line) ==> ParseCheckbox(line).None? && ParseAnnotationLine(line).None?
  {
  }

  lemma CheckboxIsNoAnnotation(line: string)
    ensures ParseCheckbox(line).Some? ==> ParseAnnotationLine(line).None?
  {
    if ParseCheckbox(line).Some? { assert TrimStart(line)[0] == '-'; }
  }

  /** Code and documentation find the same link exactly if there is none before the next
      checkbox, or one on the next non-blank line. */
  lemma {:induction false} LinkAsDocumentedIff(lines: seq<string>)
    ensures FirstLink(lines) == DocLink(lines) <==> FirstLink(lines).None? || DocLink(lines).Some?
    ensures DocLink(lines).Some? ==> FirstLink(lines) == DocLink(lines)
  {
    hide ParseCheckbox, ParseAnnotationLine, IsBlank;
    if lines != [] {
      BlankIsNothing(lines[0]);
      CheckboxIsNoAnnotation(lines[0]);
      LinkAsDocumentedIff(lines[1..]);
    }
  }

  /** Behind every checkbox there is no link before the next one, or one at once. */
  predicate LinkedAtOnce(section: seq<string>) {
    section != [] ==>
      && (ParseCheckbox(section[0]).Some? ==> FirstLink(section[1..]).None? || DocLink(section[1..]).Some?)
      && LinkedAtOnce(section[1..])
  }

  /** All rows are the documented ones exactly if every link stands on the next non-blank
      line behind its checkbox. */
  lemma {:induction false} RowsAsDocumentedIff(section: seq<string>)
    ensures Rows(section) == DocRows(section) <==> LinkedAtOnce(section)
  {
    hide ParseCheckbox, FirstLink, DocLink;
    if section != [] {
      var rest := section[1..];
      RowsAsDocumentedIff(rest);
      LinkAsDocumentedIff(rest);
      if ParseCheckbox(section[0]).Some? {
        assert Rows(section)[0].link == FirstLink(rest) && DocRows(section)[0].link == DocLink(rest);
        assert Rows(section)[1..] == Rows(rest) && DocRows(section)[1..] == DocRows(rest);
      }
    }
  }

  /** Any line of text between a checkbox and its link: the code pairs them, the
      documentation does not. */
  lemma LateLinkIsPaired(box: string, text: string, link: string)
    requires ParseCheckbox(box).Some? && ParseCheckbox(link).None? && ParseAnnotationLine(link).Some?
    requires ParseCheckbox(text).None? && ParseAnnotationLine(text).None? && !IsBlank(text)
    ensures var (checked, criterion) := ParseCheckbox(box).value;
      && Rows([box, text, link]) == [Row(criterion, checked, ParseAnnotationLine(link))]
      && DocRows([box, text, link]) == [Row(criterion, checked, None)]
  {
    hide *;
    assert [box] + ([text] + ([link] + [])) == [box, text, link];
    NoMoreLines();
    Unfold(link, []);
    Unfold(text, [link] + []);
    Unfold(box, [text] + ([link] + []));
  }

  /** What a first line does to links and rows. */
  lemma Unfold(line: string, rest: seq<string>)
    ensures FirstLink([line] + rest) == (if ParseCheckbox(line).Some? then None
                                         else if ParseAnnotationLine(line).Some? then ParseAnnotationLine(line)
                                         else FirstLink(rest))
    ensures DocLink([line] + rest) == if IsBlank(line) then DocLink(rest) else ParseAnnotationLine(line)
    ensures ParseCheckbox(line).None? ==> Rows([line] + rest) == Rows(rest) && DocRows([line] + rest) == DocRows(rest)
    ensures ParseCheckbox(line).Some? ==>
      var (checked, criterion) := ParseCheckbox(line).value;
      && Rows([line] + rest) == [Row(criterion, checked, FirstLink(rest))] + Rows(rest)
      && DocRows([line] + rest) == [Row(criterion, checked, DocLink(rest))] + DocRows(rest)
  {
    hide ParseCheckbox, ParseAnnotationLine, IsBlank;
    assert ([line] + rest)[1..] == rest;
  }

  lemma NoMoreLines()
    ensures FirstLink([]) == None && DocLink([]) == None && Rows([]) == [] && DocRows([]) == []
  {
  }

  /** Such a section. */
  lemma LateLink()
    ensures var section := ["- [ ] criterion", "more about it", "[verify](t.sh)"];
      && Rows(section) == [Row("criterion", false, Some(Link(Verify, "t.sh")))]
      && DocRows(section) == [Row("criterion", false, None)]
  {
    var box, text, link := "- [ ] criterion", "more about it", "[verify](t.sh)";
    assert ParseCheckbox(box) == Some((false, "criterion")) by { assert TrimStart(box) == box; }
    assert ParseCheckbox(text).None? && ParseAnnotationLine(text).None? && !IsBlank(text) by {
      assert TrimStart(text) == text && text[0] == 'm';
    }
    LinkLine();
    hide *;
    LateLinkIsPaired(box, text, link);
  }

  lemma LinkLine()
    ensures ParseCheckbox("[verify](t.sh)").None?
    ensures ParseAnnotationLine("[verify](t.sh)") == Some(Link(Verify, "t.sh"))
  {
    hide Capture, Balanced;
    var link, target := "[verify](t.sh)", "t.sh";
    assert TrimStart(link) == link && link[0] == '[';
    assert link == "[verify](" + (target + ")");
    assert link[9..] == target + ")";
    NoParentheses(target);
    CaptureIsBalanced(link[9..]);
  }

  lemma {:induction false} NoParentheses(s: string)
    requires '(' !in s && ')' !in s
    ensures Balanced(s)
  {
    forall k | 0 <= k <= |s| ensures Depth(s[..k]) == 0 {
      NoDepth(s[..k]);
    }
    assert s[..|s|] == s;
  }

  lemma {:induction false} NoDepth(s: string)
    requires '(' !in s && ')' !in s
    ensures Depth(s) == 0
  {
    if s != "" { NoDepth(s[..|s| - 1]); }
  }

  function FencesBefore(lines: seq<string>, n: nat): nat
    requires n <= |lines|
  {
    if n == 0 then 0 else FencesBefore(lines, n - 1) + (if IsFence(lines[n - 1]) then 1 else 0)
  }

  /** The first `n` lines without fences and without what an odd number of fences precedes. */
  function OutsideFences(lines: seq<string>, n: nat): seq<string>
    requires n <= |lines|
  {
    if n == 0 then [] else
      var kept := if !IsFence(lines[n - 1]) && FencesBefore(lines, n - 1) % 2 == 0 then [lines[n - 1]] else [];
      OutsideFences(lines, n - 1) + kept
  }

  /** Toggling at every fence keeps exactly the lines after an even number of fences. */
  lemma {:induction false} UnfencedByParity(lines: seq<string>, n: nat)
    requires n <= |lines|
    ensures Unfenced(lines, false) == OutsideFences(lines, n) + Unfenced(lines[n..], FencesBefore(lines, n) % 2 == 1)
  {
    hide IsFence;
    if n == 0 {
      assert lines[0..] == lines && [] + Unfenced(lines, false) == Unfenced(lines, false);
    } else {
      UnfencedByParity(lines, n - 1);
      var tail := lines[n - 1..];
      assert tail[0] == lines[n - 1] && tail[1..] == lines[n..];
    }
  }

  lemma UnfencedLines(lines: seq<string>)
    ensures Unfenced(lines, false) == OutsideFences(lines, |lines|)
  {
    UnfencedByParity(lines, |lines|);
    assert lines[|lines|..] == [];
  }

  /** Whether a fence is open after these lines. */
  predicate FenceOpenAfter(lines: seq<string>, inFence: bool) {
    if lines == [] then inFence else FenceOpenAfter(lines[1..], if IsFence(lines[0]) then !inFence else inFence)
  }

  lemma {:induction false} UnfencedConcat(a: seq<string>, b: seq<string>, inFence: bool)
    ensures Unfenced(a + b, inFence) == Unfenced(a, inFence) + Unfenced(b, FenceOpenAfter(a, inFence))
  {
    hide IsFence;
    if a == [] {
      assert a + b == b;
    } else {
      UnfencedConcat(a[1..], b, if IsFence(a[0]) then !inFence else inFence);
      assert (a + b)[0] == a[0] && (a + b)[1..] == a[1..] + b;
    }
  }

  predicate NoHeading(lines: seq<string>) {
    forall i :: 0 <= i < |lines| ==> !IsSuccessCriteriaHeading(lines[i])
  }

  lemma {:induction false} SectionBehind(a: seq<string>, heading: string, b: seq<string>)
    requires NoHeading(a) && IsSuccessCriteriaHeading(heading)
    ensures Section(a + ([heading] + b)) == UntilOtherH2(b)
  {
    hide IsSuccessCriteriaHeading, UntilOtherH2;
    var all := a + ([heading] + b);
    if a == [] {
      assert all[0] == heading && all[1..] == b;
    } else {
      SectionBehind(a[1..], heading, b);
      assert all[0] == a[0] && all[1..] == a[1..] + ([heading] + b);
    }
  }

  /** Only checkboxes are reported: nothing is exactly if the section, wherever it is, holds
      none. */
  lemma NothingReportedIff(body: string)
    ensures Expected(body) == [] <==> CheckboxCount(Section(Unfenced(Lines(body), false))) == 0
  {
    hide Section, Unfenced, Lines;
    RowCount(Section(Unfenced(Lines(body), false)));
  }

  /** In particular a Success Criteria section without a checkbox is reported exactly like a
      missing one, whatever precedes and follows it. */
  lemma SectionWithoutCheckboxes(before: seq<string>, heading: string, after: seq<string>)
    requires IsSuccessCriteriaHeading(heading) && AllPrintable(before + ([heading] + after))
    requires NoHeading(Unfenced(before, false)) && !FenceOpenAfter(before, false)
    requires CheckboxCount(UntilOtherH2(Unfenced(after, false))) == 0
    ensures Expected(Unlines(before + ([heading] + after))) == []
  {
    hide IsSuccessCriteriaHeading, IsFence, Rows, Unlines, Lines, Section, UntilOtherH2, NoHeading, FenceOpenAfter;
    var lines := before + ([heading] + after);
    LinesOfUnlines(lines);
    HeadingIsNoRow(heading);
    UnfencedConcat(before, [heading] + after, false);
    assert ([heading] + after)[1..] == after;
    assert Unfenced([heading] + after, false) == [heading] + Unfenced(after, false);
    SectionBehind(Unfenced(before, false), heading, Unfenced(after, false));
    NothingReportedIff(Unlines(lines));
  }

  /** A level-2 heading that does not announce the section again. */
  predicate Ends(line: string) {
    !IsSuccessCriteriaHeading(line) && IsOtherH2(line)
  }

  /** The section is everything between its first heading and the first other one. */
  lemma SectionIs(before: seq<string>, heading: string, inside: seq<string>, after: seq<string>)
    requires NoHeading(before) && IsSuccessCriteriaHeading(heading)
    requires forall i :: 0 <= i < |inside| ==> !Ends(inside[i])
    requires after != [] ==> Ends(after[0])
    ensures Section(before + ([heading] + (inside + after))) == inside
  {
    hide IsSuccessCriteriaHeading, UntilOtherH2, Section, Ends;
    SectionBehind(before, heading, inside + after);
    UntilIs(inside, after);
  }

  lemma {:induction false} UntilIs(inside: seq<string>, after: seq<string>)
    requires forall i :: 0 <= i < |inside| ==> !Ends(inside[i])
    requires after != [] ==> Ends(after[0])
    ensures UntilOtherH2(inside + after) == inside
  {
    hide IsSuccessCriteriaHeading, IsOtherH2;
    if inside == [] {
      assert inside + after == after;
    } else {
      UntilIs(inside[1..], after);
      assert (inside + after)[0] == inside[0] && (inside + after)[1..] == inside[1..] + after;
      assert [inside[0]] + inside[1..] == inside;
    }
  }
}
