/** The parser for the Options Format Contract of clarify beads. */
module Options {
  import opened Prelude
  import opened Text

  datatype OptionEntry = OptionEntry(n: nat, title: string, body: string)
  datatype OptionsParse = OptionsParse(summary: string, options: seq<OptionEntry>)

  const U32_LIMIT := 0x1_0000_0000
  const EM_DASH := '\U{2014}'
  const EN_DASH := '\U{2013}'

  // ----------------------------------------------------------- line classifiers

  function StripPrefix(s: string, prefix: string): Option<string> {
    if prefix <= s then Some(s[|prefix|..]) else None
  }

  function MatchOptionsHeading(line: string): Option<string> {
    match StripPrefix(line, "## ")
    case None => None
    case Some(rest) =>
      match StripPrefix(rest, "Options")
      case None => None
      case Some(tail) => if tail == "" || StartsWithWhitespace(tail) then Some(TrimStart(tail)) else None
  }

  function DigitCount(s: string): (n: nat)
    ensures n <= |s| && (forall i :: 0 <= i < n ==> IsDigit(s[i]))
    ensures n < |s| ==> !IsDigit(s[n])
  {
    if s == "" || !IsDigit(s[0]) then 0 else 1 + DigitCount(s[1..])
  }

  method TakeDigits(s: string) returns (digits: string, after: string)
    ensures digits + after == s
    ensures digits == s[..DigitCount(s)] && after == s[DigitCount(s)..]
  {
    var end := 0;
    for i := 0 to |s|
      invariant end == i
      invariant forall k :: 0 <= k < i ==> IsDigit(s[k])
    {
      if IsDigit(s[i]) { end := i + 1; } else { break; }
    }
    digits, after := s[..end], s[end..];
  }

  /** The value of a digit string. */
  function DigitsValue(digits: string): nat
    requires forall i :: 0 <= i < |digits| ==> IsDigit(digits[i])
  {
    if digits == "" then 0
    else
      var last := digits[|digits| - 1];
      assert IsDigit(last);
      10 * DigitsValue(digits[..|digits| - 1]) + (last as int - '0' as int)
  }

  function MatchOptionHeading(line: string): Option<(nat, string)> {
    match StripPrefix(line, "### ")
    case None => None
    case Some(r1) =>
      match StripPrefix(r1, "Option")
      case None => None
      case Some(r2) =>
        match StripPrefix(r2, " ")
        case None => None
        case Some(r3) =>
          var trimmed := TrimStart(r3);
          var k := DigitCount(trimmed);
          var digits, after := trimmed[..k], trimmed[k..];
          if digits == "" || DigitsValue(digits) >= U32_LIMIT then None
          else if after != "" && !StartsWithWhitespace(after) then None
          else Some((DigitsValue(digits), TrimStart(after)))
  }

  function StripSeparator(rest: string): string {
    var trimmed := TrimStart(rest);
    var after :=
      if [EM_DASH] <= trimmed then trimmed[1..]
      else if [EN_DASH] <= trimmed then trimmed[1..]
      else if "--" <= trimmed then trimmed[2..]
      else if "-" <= trimmed then trimmed[1..]
      else trimmed;
    Trim(after)
  }

  predicate IsNextH2(line: string) {
    "## " <= line && !("### " <= line)
  }

  function StripLfs(s: string): string {
    if s != "" && s[|s| - 1] == '\n' then StripLfs(s[..|s| - 1])
    else if s != "" && s[0] == '\n' then StripLfs(s[1..])
    else s
  }

  method JoinBody(lines: seq<string>) returns (s: string)
    ensures s == StripLfs(Join(lines))
    ensures s != "" ==> s[0] != '\n' && s[|s| - 1] != '\n'
  {
    s := Join(lines);
    while s != "" && s[|s| - 1] == '\n'
      invariant StripLfs(s) == StripLfs(Join(lines))
      decreases |s|
    {
      s := s[..|s| - 1];
    }
    while s != "" && s[0] == '\n'
      invariant StripLfs(s) == StripLfs(Join(lines))
      invariant s != "" ==> s[|s| - 1] != '\n'
      decreases |s|
    {
      s := s[1..];
    }
  }

  // ------------------------------------------------------------ the line machine

  datatype Scan = Scan(parse: OptionsParse, inOptions: bool, current: Option<(nat, string)>, bodyLines: seq<string>)

  const START := Scan(OptionsParse("", []), false, None, [])

  /** Push the option being read, if any. */
  function Close(st: Scan): Scan {
    if st.current.None? then st
    else
      var entry := OptionEntry(st.current.value.0, st.current.value.1, StripLfs(Join(st.bodyLines)));
      Scan(st.parse.(options := st.parse.options + [entry]), st.inOptions, None, [])
  }

  function ScanLine(st: Scan, line: string): Scan {
    if !st.inOptions then
      var heading := MatchOptionsHeading(line);
      if heading.None? then st
      else st.(inOptions := true, parse := st.parse.(summary := StripSeparator(heading.value)))
    else
      var option := MatchOptionHeading(line);
      if option.Some? then Close(st).(current := Some((option.value.0, StripSeparator(option.value.1))))
      else if IsNextH2(line) then Close(st).(inOptions := false)
      else if st.current.Some? then st.(bodyLines := st.bodyLines + [line])
      else st
  }

  function ScanLines(st: Scan, lines: seq<string>): Scan
    decreases |lines|
  {
    if lines == [] then st else ScanLines(ScanLine(st, lines[0]), lines[1..])
  }

  function ParseLines(lines: seq<string>): OptionsParse {
    Close(ScanLines(START, lines)).parse
  }

  method ParseOptions(description: string) returns (parse: OptionsParse)
    ensures parse == ParseLines(Lines(description))
  {
    var lines := Lines(description);
    parse := OptionsParse("", []);
    var inOptions := false;
    var current: Option<(nat, string)> := None;
    var bodyLines: seq<string> := [];
    for i := 0 to |lines|
      invariant current.None? ==> bodyLines == []
      invariant ScanLines(Scan(parse, inOptions, current, bodyLines), lines[i..]) == ScanLines(START, lines)
    {
      hide StripSeparator, MatchOptionHeading, MatchOptionsHeading, IsNextH2, StripLfs, Join;
      var line := lines[i];
      assert lines[i..][0] == line && lines[i..][1..] == lines[i + 1..];
      if !inOptions {
        var heading := MatchOptionsHeading(line);
        if heading.Some? {
          inOptions := true;
          parse := parse.(summary := StripSeparator(heading.value));
        }
        continue;
      }
      var option := MatchOptionHeading(line);
      if option.Some? {
        if current.Some? {
          var body := JoinBody(bodyLines);
          parse := parse.(options := parse.options + [OptionEntry(current.value.0, current.value.1, body)]);
          bodyLines := [];
        }
        current := Some((option.value.0, StripSeparator(option.value.1)));
        continue;
      }
      if IsNextH2(line) {
        if current.Some? {
          var body := JoinBody(bodyLines);
          parse := parse.(options := parse.options + [OptionEntry(current.value.0, current.value.1, body)]);
          bodyLines := [];
        }
        current, inOptions := None, false;
        continue;
      }
      if current.Some? { bodyLines := bodyLines + [line]; }
    }
    assert lines[|lines|..] == [];
    if current.Some? {
      var body := JoinBody(bodyLines);
      parse := parse.(options := parse.options + [OptionEntry(current.value.0, current.value.1, body)]);
    }
  }

  // ------------------------------------------------------- the contract's format

  datatype Separator = EmDash | EnDash | Hyphen | DoubleHyphen

  function SeparatorText(sep: Separator): string {
    match sep
    case EmDash => [EM_DASH]
    case EnDash => [EN_DASH]
    case Hyphen => "-"
    case DoubleHyphen => "--"
  }

  /** What follows `## Options` or `### Option N`: nothing at all, or a separator and
      a text, which may itself be empty. */
  datatype Caption = Bare | Captioned(sep: Separator, text: string)

  function CaptionText(caption: Caption): string {
    if caption.Bare? then "" else caption.text
  }

  function PrintCaption(caption: Caption): string {
    if caption.Bare? then "" else " " + SeparatorText(caption.sep) + " " + caption.text
  }

  predicate GoodCaption(caption: Caption) {
    caption.Captioned? ==> Trimmed(caption.text) && Printable(caption.text)
  }

  /** An option as authored: number, title, and body lines with blank lines around. */
  datatype AuthoredOption = AuthoredOption(n: nat, title: Caption, before: nat, body: seq<string>, after: nat)

  function Blanks(k: nat): seq<string> {
    if k == 0 then [] else [""] + Blanks(k - 1)
  }

  /** A line the parser keeps as part of a body. */
  predicate PlainLine(line: string) {
    Printable(line) && MatchOptionHeading(line).None? && !IsNextH2(line)
  }

  predicate AllPlain(lines: seq<string>) {
    forall i :: 0 <= i < |lines| ==> PlainLine(lines[i])
  }

  predicate GoodBody(body: seq<string>) {
    AllPlain(body) && (body != [] ==> body[0] != "" && body[|body| - 1] != "")
  }

  predicate GoodOption(o: AuthoredOption) {
    o.n < U32_LIMIT && GoodCaption(o.title) && GoodBody(o.body)
  }

  function PrintOption(o: AuthoredOption): seq<string> {
    ["### Option " + Decimal(o.n) + PrintCaption(o.title)] + (Blanks(o.before) + o.body + Blanks(o.after))
  }

  function PrintedOptions(os: seq<AuthoredOption>): seq<string> {
    if os == [] then [] else PrintOption(os[0]) + PrintedOptions(os[1..])
  }

  /** A description: text before the block, the heading, text before the first option,
      the options, and possibly a further `##` section with its text. */
  datatype Description = Description(preamble: seq<string>, summary: Caption, intro: seq<string>,
                                     options: seq<AuthoredOption>, trailer: seq<string>)

  predicate NoOptionsHeading(lines: seq<string>) {
    forall i :: 0 <= i < |lines| ==> MatchOptionsHeading(lines[i]).None?
  }

  predicate GoodDescription(d: Description) {
    && AllPrintable(d.preamble) && NoOptionsHeading(d.preamble)
    && GoodCaption(d.summary)
    && AllPlain(d.intro)
    && (forall i :: 0 <= i < |d.options| ==> GoodOption(d.options[i]))
    && AllPrintable(d.trailer)
    && (d.trailer != [] ==> IsNextH2(d.trailer[0]) && MatchOptionHeading(d.trailer[0]).None?
                            && NoOptionsHeading(d.trailer[1..]))
  }

  function PrintDescription(d: Description): seq<string> {
    d.preamble + (["## Options" + PrintCaption(d.summary)] + (d.intro + (PrintedOptions(d.options) + d.trailer)))
  }

  // ------------------------------------------------ the same, by the text of a line

  predicate AllDigits(s: string) {
    forall i :: 0 <= i < |s| ==> IsDigit(s[i])
  }

  /** `### Option `, perhaps more white space, a u32 number, and then nothing or white space
      and any text. */
  predicate SpelledOption(line: string, spaces: string, digits: string, tail: string) {
    && line == "### Option " + spaces + digits + tail
    && AllWhitespace(spaces) && digits != "" && AllDigits(digits) && DigitsValue(digits) < U32_LIMIT
    && (tail != "" ==> IsWhitespace(tail[0]))
  }

  ghost predicate NamesOption(line: string, n: nat, title: string) {
    exists spaces, digits, tail ::
      SpelledOption(line, spaces, digits, tail) && DigitsValue(digits) == n && TrimStart(tail) == title
  }

  /** `## Options`, alone or followed by white space and any text. */
  predicate OpensOptions(line: string) {
    "## Options" <= line && (|line| > 10 ==> IsWhitespace(line[10]))
  }

  /** Body text: no line that starts with `## ` or names an option. */
  ghost predicate IsBodyText(line: string) {
    Printable(line) && !("## " <= line) && forall n, title :: !NamesOption(line, n, title)
  }

  ghost predicate AllBodyText(lines: seq<string>) {
    forall i :: 0 <= i < |lines| ==> IsBodyText(lines[i])
  }

  ghost predicate WellFormedOption(o: AuthoredOption) {
    && o.n < U32_LIMIT && GoodCaption(o.title) && AllBodyText(o.body)
    && (o.body != [] ==> o.body[0] != "" && o.body[|o.body| - 1] != "")
  }

  predicate OpensNowhere(lines: seq<string>) {
    forall i :: 0 <= i < |lines| ==> !OpensOptions(lines[i])
  }

  /** Any text before the block, any text in it but headings, any `## ` section after it. */
  ghost predicate WellFormed(d: Description) {
    && AllPrintable(d.preamble) && OpensNowhere(d.preamble)
    && GoodCaption(d.summary) && AllBodyText(d.intro)
    && (forall i :: 0 <= i < |d.options| ==> WellFormedOption(d.options[i]))
    && AllPrintable(d.trailer) && (d.trailer != [] ==> "## " <= d.trailer[0] && OpensNowhere(d.trailer[1..]))
  }

  /** The parser's heading tests are exactly those of the text. */
  lemma OptionHeadingIff(line: string, n: nat, title: string)
    ensures MatchOptionHeading(line) == Some((n, title)) <==> NamesOption(line, n, title)
  {
    if NamesOption(line, n, title) {
      var spaces, digits, tail :|
        SpelledOption(line, spaces, digits, tail) && DigitsValue(digits) == n && TrimStart(tail) == title;
      SpelledIsMatched(line, spaces, digits, tail);
    }
    if MatchOptionHeading(line) == Some((n, title)) {
      MatchedIsSpelled(line);
    }
  }

  lemma SpelledIsMatched(line: string, spaces: string, digits: string, tail: string)
    requires SpelledOption(line, spaces, digits, tail)
    ensures MatchOptionHeading(line) == Some((DigitsValue(digits), TrimStart(tail)))
  {
    hide DigitsValue, TrimStart, StripPrefix, DigitCount, IsWhitespace;
    var rest := spaces + (digits + tail);
    assert line == "### " + ("Option" + (" " + rest));
    StripPrefixOf("### ", "Option" + (" " + rest));
    StripPrefixOf("Option", " " + rest);
    StripPrefixOf(" ", rest);
    DigitStarts(digits, tail);
    TrimStartOver(spaces, digits + tail);
    NumberReadsBack(digits, tail);
  }

  lemma DigitStarts(digits: string, tail: string)
    requires digits != "" && AllDigits(digits)
    ensures digits + tail != "" && !IsWhitespace((digits + tail)[0])
    ensures tail != "" && IsWhitespace(tail[0]) ==> !IsDigit(tail[0])
  {
    assert (digits + tail)[0] == digits[0];
  }

  lemma MatchedIsSpelled(line: string)
    requires MatchOptionHeading(line).Some?
    ensures NamesOption(line, MatchOptionHeading(line).value.0, MatchOptionHeading(line).value.1)
  {
    hide DigitsValue, TrimStart, IsWhitespace;
    var rest := line[11..];
    assert line == "### Option " + rest;
    assert line[4..][6..][1..] == rest;
    var spaces := TrimStartSplits(rest);
    var trimmed := TrimStart(rest);
    var digits, tail := trimmed[..DigitCount(trimmed)], trimmed[DigitCount(trimmed)..];
    assert line == "### Option " + spaces + digits + tail;
    assert SpelledOption(line, spaces, digits, tail);
  }

  lemma HeadingsByText(line: string)
    ensures IsNextH2(line) <==> "## " <= line
    ensures MatchOptionsHeading(line).Some? <==> OpensOptions(line)
    ensures "## " <= line ==> MatchOptionHeading(line).None?
  {
    if "## " <= line { assert line[2] == ' '; }
    if "## Options" <= line {
      assert line == "## " + ("Options" + line[10..]);
      assert line[3..] == "Options" + line[10..];
      assert line[3..][7..] == line[10..];
    }
  }

  lemma PlainByText(line: string)
    ensures PlainLine(line) <==> IsBodyText(line)
  {
    hide MatchOptionHeading, IsNextH2, NamesOption, Printable, MatchOptionsHeading;
    HeadingsByText(line);
    if MatchOptionHeading(line).Some? {
      var (n, title) := MatchOptionHeading(line).value;
      OptionHeadingIff(line, n, title);
    }
    forall n, title ensures NamesOption(line, n, title) ==> MatchOptionHeading(line).Some? {
      OptionHeadingIff(line, n, title);
    }
  }

  lemma NoHeadingByText(lines: seq<string>)
    ensures NoOptionsHeading(lines) <==> OpensNowhere(lines)
  {
    hide MatchOptionsHeading, OpensOptions, MatchOptionHeading, IsNextH2;
    forall i | 0 <= i < |lines| ensures MatchOptionsHeading(lines[i]).Some? <==> OpensOptions(lines[i]) {
      HeadingsByText(lines[i]);
    }
  }

  lemma AllPlainByText(lines: seq<string>)
    ensures AllPlain(lines) <==> AllBodyText(lines)
  {
    hide PlainLine, IsBodyText;
    forall i | 0 <= i < |lines| ensures PlainLine(lines[i]) <==> IsBodyText(lines[i]) { PlainByText(lines[i]); }
  }

  lemma GoodByText(d: Description)
    ensures GoodDescription(d) <==> WellFormed(d)
  {
    hide AllPlain, AllBodyText, NoOptionsHeading, OpensNowhere, AllPrintable, MatchOptionHeading, IsNextH2,
      MatchOptionsHeading, OpensOptions, GoodCaption;
    NoHeadingByText(d.preamble);
    AllPlainByText(d.intro);
    forall i | 0 <= i < |d.options| ensures GoodOption(d.options[i]) <==> WellFormedOption(d.options[i]) {
      AllPlainByText(d.options[i].body);
    }
    if d.trailer != [] {
      NoHeadingByText(d.trailer[1..]);
      HeadingsByText(d.trailer[0]);
    }
  }

  /** What the author meant. */
  function Meaning(o: AuthoredOption): OptionEntry {
    OptionEntry(o.n, CaptionText(o.title), Join(o.body))
  }

  function Meanings(os: seq<AuthoredOption>): seq<OptionEntry> {
    if os == [] then [] else [Meaning(os[0])] + Meanings(os[1..])
  }

  // --------------------------------------------------------- reading headings back

  lemma DigitChar(n: nat)
    requires n < 10
    ensures IsDigit(Digit(n)) && Digit(n) as int - '0' as int == n
  {
  }

  lemma DigitsAppend(s: string, c: char)
    requires forall i :: 0 <= i < |s| ==> IsDigit(s[i])
    requires IsDigit(c)
    ensures forall i :: 0 <= i < |s + [c]| ==> IsDigit((s + [c])[i])
    ensures DigitsValue(s + [c]) == 10 * DigitsValue(s) + (c as int - '0' as int)
  {
    assert (s + [c])[..|s|] == s;
  }

  lemma {:induction false} DecimalDigits(n: nat)
    ensures Decimal(n) != "" && forall i :: 0 <= i < |Decimal(n)| ==> IsDigit(Decimal(n)[i])
    ensures DigitsValue(Decimal(n)) == n
  {
    hide Digit, DigitsValue;
    DigitChar(n % 10);
    if n < 10 {
      assert "" + [Digit(n)] == [Digit(n)];
      NoDigits();
      DigitsAppend("", Digit(n));
    } else {
      DecimalDigits(n / 10);
      DigitsAppend(Decimal(n / 10), Digit(n % 10));
    }
  }

  lemma NoDigits()
    ensures DigitsValue("") == 0
  {
  }

  lemma {:induction false} DigitCountAt(digits: string, after: string)
    requires forall i :: 0 <= i < |digits| ==> IsDigit(digits[i])
    requires after != "" ==> !IsDigit(after[0])
    ensures DigitCount(digits + after) == |digits|
  {
    if digits == "" {
      assert digits + after == after;
    } else {
      DigitCountAt(digits[1..], after);
      assert (digits + after)[1..] == digits[1..] + after;
    }
  }

  lemma CaptionReadsBack(caption: Caption)
    requires GoodCaption(caption)
    ensures StripSeparator(TrimStart(PrintCaption(caption))) == CaptionText(caption)
    ensures var s := PrintCaption(caption); s == "" || (StartsWithWhitespace(s) && !IsDigit(s[0]))
  {
    hide Trim, StripSeparator, SeparatorText;
    if caption.Captioned? {
      var rest := SeparatorText(caption.sep) + (" " + caption.text);
      assert PrintCaption(caption) == " " + rest;
      TrimSpaced(caption.text);
      SeparatorStripped(caption.sep, caption.text);
      TrimOneSpace(rest);
    } else {
      BareCaption();
    }
  }

  lemma BareCaption()
    ensures StripSeparator(TrimStart("")) == ""
  {
  }

  lemma TrimOneSpace(s: string)
    requires s != "" && !IsWhitespace(s[0])
    ensures TrimStart(" " + s) == s && TrimStart(s) == s
  {
    assert (" " + s)[1..] == s;
  }

  lemma SeparatorStripped(sep: Separator, text: string)
    ensures var rest := SeparatorText(sep) + (" " + text);
            && rest != "" && !IsWhitespace(rest[0])
            && StripSeparator(rest) == Trim(" " + text)
  {
    hide Trim;
    var tail := " " + text;
    var rest := SeparatorText(sep) + tail;
    assert rest[|SeparatorText(sep)|..] == tail;
    assert !IsWhitespace(rest[0]) && TrimStart(rest) == rest;
    match sep
    case EmDash =>
    case EnDash => assert rest[0] == EN_DASH;
    case Hyphen => assert rest[0] == '-' && rest[1] == ' ';
    case DoubleHyphen => assert rest[0] == '-' && rest[1] == '-';
  }

  /** Exactly one separator is cut, behind white space, and the text around is trimmed. */
  lemma SeparatorCut(rest: string, sep: Separator, tail: string)
    requires TrimStart(rest) == SeparatorText(sep) + tail && (sep.Hyphen? ==> !("-" <= tail))
    ensures StripSeparator(rest) == Trim(tail)
  {
    hide Trim, TrimStart, IsWhitespace;
    var trimmed := SeparatorText(sep) + tail;
    assert trimmed[|SeparatorText(sep)|..] == tail && trimmed[0] == SeparatorText(sep)[0];
    match sep
    case EmDash =>
    case EnDash =>
    case Hyphen => assert tail != "" ==> trimmed[1] == tail[0];
    case DoubleHyphen => assert trimmed[1] == '-' && trimmed[..2] == "--";
  }

  /** A text that starts with no separator is only trimmed. */
  lemma NoSeparatorCut(rest: string)
    requires forall sep: Separator :: !(SeparatorText(sep) <= TrimStart(rest))
    ensures StripSeparator(rest) == Trim(rest)
  {
    hide TrimEnd, IsWhitespace, TrimStart;
    var trimmed := TrimStart(rest);
    TrimmedStartStays(rest);
    assert !(SeparatorText(EmDash) <= trimmed) && !(SeparatorText(EnDash) <= trimmed);
    assert !(SeparatorText(Hyphen) <= trimmed) && !(SeparatorText(DoubleHyphen) <= trimmed);
  }

  lemma TrimmedStartStays(s: string)
    ensures TrimStart(TrimStart(s)) == TrimStart(s)
  {
    hide IsWhitespace;
    var spaces := TrimStartSplits(s);
  }

  lemma OptionHeadingReadsBack(n: nat, caption: Caption)
    requires n < U32_LIMIT && GoodCaption(caption)
    ensures var r := MatchOptionHeading("### Option " + Decimal(n) + PrintCaption(caption));
            r.Some? && r.value.0 == n && StripSeparator(r.value.1) == CaptionText(caption)
  {
    hide StripSeparator, DigitsValue, PrintCaption, StripPrefix, TrimStart, Decimal, DigitCount;
    var digits, tail := Decimal(n), PrintCaption(caption);
    CaptionReadsBack(caption);
    DecimalDigits(n);
    assert "### Option " + digits + tail == "### " + ("Option" + (" " + (digits + tail)));
    StripPrefixOf("### ", "Option" + (" " + (digits + tail)));
    StripPrefixOf("Option", " " + (digits + tail));
    StripPrefixOf(" ", digits + tail);
    NumberReadsBack(digits, tail);
  }

  lemma StripPrefixOf(p: string, s: string)
    ensures StripPrefix(p + s, p) == Some(s)
  {
  }

  lemma NumberReadsBack(digits: string, tail: string)
    requires digits != "" && forall i :: 0 <= i < |digits| ==> IsDigit(digits[i])
    requires tail != "" ==> !IsDigit(tail[0])
    ensures TrimStart(digits + tail) == digits + tail
    ensures DigitCount(digits + tail) == |digits|
    ensures (digits + tail)[..|digits|] == digits && (digits + tail)[|digits|..] == tail
  {
    DigitCountAt(digits, tail);
    assert IsDigit((digits + tail)[0]);
  }

  lemma OptionsHeadingReadsBack(caption: Caption)
    requires GoodCaption(caption)
    ensures var r := MatchOptionsHeading("## Options" + PrintCaption(caption));
            r.Some? && StripSeparator(r.value) == CaptionText(caption)
  {
    hide StripSeparator, PrintCaption, StripPrefix, TrimStart;
    CaptionReadsBack(caption);
    assert "## Options" + PrintCaption(caption) == "## " + ("Options" + PrintCaption(caption));
    StripPrefixOf("## ", "Options" + PrintCaption(caption));
    StripPrefixOf("Options", PrintCaption(caption));
  }

  // ----------------------------------------------------------- reading bodies back

  function Lfs(k: nat): string {
    if k == 0 then "" else "\n" + Lfs(k - 1)
  }

  lemma JoinCons(line: string, lines: seq<string>)
    requires lines != []
    ensures Join([line] + lines) == line + "\n" + Join(lines)
  {
    assert ([line] + lines)[1..] == lines;
  }

  lemma {:induction false} JoinAfterBlanks(k: nat, lines: seq<string>)
    requires lines != []
    ensures Join(Blanks(k) + lines) == Lfs(k) + Join(lines)
  {
    hide Join;
    if k == 0 {
      assert Blanks(0) + lines == lines;
      assert "" + Join(lines) == Join(lines);
    } else {
      JoinAfterBlanks(k - 1, lines);
      assert Blanks(k) + lines == [""] + (Blanks(k - 1) + lines);
      JoinCons("", Blanks(k - 1) + lines);
      assert "" + "\n" + (Lfs(k - 1) + Join(lines)) == Lfs(k) + Join(lines);
    }
  }

  lemma {:induction false} JoinBeforeBlanks(lines: seq<string>, k: nat)
    requires lines != []
    ensures Join(lines + Blanks(k)) == Join(lines) + Lfs(k)
  {
    if |lines| > 1 {
      JoinBeforeBlanks(lines[1..], k);
      assert (lines + Blanks(k))[1..] == lines[1..] + Blanks(k);
    } else if k == 0 {
      assert lines + Blanks(0) == lines;
    } else {
      assert (lines + Blanks(k))[1..] == Blanks(k);
      JoinBlanks(k);
    }
  }

  lemma {:induction false} JoinBlanks(k: nat)
    requires k >= 1
    ensures Join(Blanks(k)) == Lfs(k - 1)
  {
    if k > 1 {
      JoinBlanks(k - 1);
      assert Blanks(k) == [""] + Blanks(k - 1);
    }
  }

  lemma {:induction false} JoinEnds(lines: seq<string>)
    requires lines != [] && lines[0] != "" && lines[|lines| - 1] != ""
    ensures var s := Join(lines); var last := lines[|lines| - 1];
            s != "" && s[0] == lines[0][0] && s[|s| - 1] == last[|last| - 1]
  {
    if |lines| > 1 { JoinLast(lines[1..]); }
  }

  lemma {:induction false} JoinLast(lines: seq<string>)
    requires lines != [] && lines[|lines| - 1] != ""
    ensures var s := Join(lines); var last := lines[|lines| - 1];
            s != "" && s[|s| - 1] == last[|last| - 1]
  {
    if |lines| > 1 { JoinLast(lines[1..]); }
  }

  lemma {:induction false} LfsSnoc(k: nat)
    requires k > 0
    ensures Lfs(k) == Lfs(k - 1) + "\n"
  {
    if k > 1 { LfsSnoc(k - 1); }
  }

  lemma StripLastLf(s: string)
    ensures StripLfs(s + "\n") == StripLfs(s)
  {
    assert (s + "\n")[..|s|] == s;
  }

  lemma StripFirstLf(s: string)
    requires s != "" && s[|s| - 1] != '\n'
    ensures StripLfs("\n" + s) == StripLfs(s)
  {
    assert ("\n" + s)[1..] == s;
  }

  lemma {:induction false} StripTrailingLfs(s: string, b: nat)
    ensures StripLfs(s + Lfs(b)) == StripLfs(s)
  {
    hide StripLfs;
    if b == 0 {
      assert s + "" == s;
    } else {
      LfsSnoc(b);
      assert s + Lfs(b) == (s + Lfs(b - 1)) + "\n";
      StripLastLf(s + Lfs(b - 1));
      StripTrailingLfs(s, b - 1);
    }
  }

  lemma {:induction false} StripLeadingLfs(a: nat, s: string)
    requires s != "" ==> s[0] != '\n' && s[|s| - 1] != '\n'
    ensures StripLfs(Lfs(a) + s) == s
  {
    hide StripLfs;
    StripNothing(s);
    if s == "" {
      StripTrailingLfs("", a);
      assert "" + Lfs(a) == Lfs(a) + s;
    } else if a == 0 {
      assert "" + s == s;
    } else {
      assert Lfs(a) + s == "\n" + (Lfs(a - 1) + s);
      StripFirstLf(Lfs(a - 1) + s);
      StripLeadingLfs(a - 1, s);
    }
  }

  lemma StripNothing(s: string)
    requires s != "" ==> s[0] != '\n' && s[|s| - 1] != '\n'
    ensures StripLfs(s) == s
  {
  }

  lemma StripSurroundingLfs(a: nat, s: string, b: nat)
    requires s != "" ==> s[0] != '\n' && s[|s| - 1] != '\n'
    ensures StripLfs(Lfs(a) + s + Lfs(b)) == s
  {
    StripTrailingLfs(Lfs(a) + s, b);
    StripLeadingLfs(a, s);
  }

  lemma BodyReadsBack(o: AuthoredOption)
    requires GoodBody(o.body)
    ensures StripLfs(Join(Blanks(o.before) + o.body + Blanks(o.after))) == Join(o.body)
  {
    hide PlainLine, StripLfs;
    if o.body == [] {
      EmptyBodyReadsBack(o.before, o.after);
      assert Blanks(o.before) + o.body + Blanks(o.after) == Blanks(o.before) + Blanks(o.after);
    } else {
      assert Blanks(o.before) + o.body + Blanks(o.after) == Blanks(o.before) + (o.body + Blanks(o.after));
      JoinAfterBlanks(o.before, o.body + Blanks(o.after));
      JoinBeforeBlanks(o.body, o.after);
      JoinEnds(o.body);
      PlainHasNoLf(o.body[0]);
      PlainHasNoLf(o.body[|o.body| - 1]);
      assert Lfs(o.before) + (Join(o.body) + Lfs(o.after)) == Lfs(o.before) + Join(o.body) + Lfs(o.after);
      StripSurroundingLfs(o.before, Join(o.body), o.after);
    }
  }

  lemma EmptyBodyReadsBack(before: nat, after: nat)
    ensures StripLfs(Join(Blanks(before) + Blanks(after))) == ""
  {
    hide StripLfs, Join;
    var k := before + after;
    BlanksAdd(before, after);
    if k > 0 {
      JoinBlanks(k);
      StripLeadingLfs(k - 1, "");
      assert Lfs(k - 1) + "" == Lfs(k - 1);
    } else {
      JoinNothing();
      StripNothing("");
    }
  }

  lemma JoinNothing()
    ensures Join([]) == ""
  {
  }

  lemma {:induction false} BlanksAdd(a: nat, b: nat)
    ensures Blanks(a) + Blanks(b) == Blanks(a + b)
  {
    if a > 0 { BlanksAdd(a - 1, b); }
  }

  lemma PlainHasNoLf(line: string)
    requires PlainLine(line)
    ensures '\n' !in line
  {
  }

  // ------------------------------------------------------------- the round trip

  lemma {:induction false} ScanConcat(st: Scan, a: seq<string>, b: seq<string>)
    ensures ScanLines(st, a + b) == ScanLines(ScanLines(st, a), b)
    decreases |a|
  {
    hide ScanLine;
    if a == [] {
      assert a + b == b;
    } else {
      ScanConcat(ScanLine(st, a[0]), a[1..], b);
      assert (a + b)[1..] == a[1..] + b;
    }
  }

  /** Outside the block, lines that do not open it leave no trace. */
  lemma {:induction false} ScanOutside(st: Scan, lines: seq<string>)
    requires !st.inOptions && NoOptionsHeading(lines)
    ensures ScanLines(st, lines) == st
    decreases |lines|
  {
    hide MatchOptionsHeading, MatchOptionHeading;
    if lines != [] { ScanOutside(st, lines[1..]); }
  }

  /** Inside the block, plain lines accrue to the current option or are dropped. */
  lemma {:induction false} ScanPlain(st: Scan, lines: seq<string>)
    requires st.inOptions && AllPlain(lines)
    ensures ScanLines(st, lines) == if st.current.Some? then st.(bodyLines := st.bodyLines + lines) else st
    decreases |lines|
  {
    hide MatchOptionHeading, IsNextH2, Printable;
    if lines == [] {
      assert st.bodyLines + [] == st.bodyLines;
    } else {
      var st' := ScanLine(st, lines[0]);
      assert PlainLine(lines[0]);
      ScanPlain(st', lines[1..]);
      if st.current.Some? {
        assert st.bodyLines + [lines[0]] + lines[1..] == st.bodyLines + lines;
      }
    }
  }

  lemma {:induction false} BlanksPlain(k: nat)
    ensures AllPlain(Blanks(k))
  {
    if k > 0 { BlanksPlain(k - 1); }
  }

  /** An option extends from its heading to the next one: scanning its lines closes the
      option before it and leaves this one open with exactly its own body. */
  lemma ScanOption(st: Scan, o: AuthoredOption)
    requires st.inOptions && GoodOption(o) && (st.current.None? ==> st.bodyLines == [])
    ensures var st' := ScanLines(st, PrintOption(o));
            && st'.inOptions && st'.current.Some?
            && Close(st').parse == Close(st).parse.(options := Close(st).parse.options + [Meaning(o)])
  {
    hide MatchOptionHeading, IsNextH2, Printable, StripLfs, Join, StripSeparator, MatchOptionsHeading;
    var heading := "### Option " + Decimal(o.n) + PrintCaption(o.title);
    var lines := Blanks(o.before) + o.body + Blanks(o.after);
    OptionHeadingReadsBack(o.n, o.title);
    BlanksPlain(o.before);
    BlanksPlain(o.after);
    var inBlock := ScanLine(st, heading);
    assert inBlock == Close(st).(current := Some((o.n, CaptionText(o.title))));
    ScanPlain(inBlock, lines);
    assert PrintOption(o)[1..] == lines && PrintOption(o)[0] == heading;
    assert [] + lines == lines;
    BodyReadsBack(o);
  }

  lemma {:induction false} ScanOptions(st: Scan, os: seq<AuthoredOption>)
    requires st.inOptions && (st.current.None? ==> st.bodyLines == [])
    requires forall i :: 0 <= i < |os| ==> GoodOption(os[i])
    ensures var st' := ScanLines(st, PrintedOptions(os));
            && st'.inOptions && (st'.current.None? ==> st'.bodyLines == [])
            && Close(st').parse == Close(st).parse.(options := Close(st).parse.options + Meanings(os))
    decreases |os|
  {
    hide GoodOption, PrintOption, Meaning, Close, ScanLine;
    var before := Close(st).parse;
    if os == [] {
      assert before.options + [] == before.options;
    } else {
      hide ScanLines;
      ScanOption(st, os[0]);
      var st' := ScanLines(st, PrintOption(os[0]));
      ScanOptions(st', os[1..]);
      ScanConcat(st, PrintOption(os[0]), PrintedOptions(os[1..]));
      assert Meanings(os) == [Meaning(os[0])] + Meanings(os[1..]);
      assert before.options + [Meaning(os[0])] + Meanings(os[1..]) == before.options + Meanings(os);
    }
  }

  lemma ScanTrailer(st: Scan, trailer: seq<string>)
    requires st.inOptions
    requires trailer != [] ==> IsNextH2(trailer[0]) && MatchOptionHeading(trailer[0]).None?
                               && NoOptionsHeading(trailer[1..])
    ensures Close(ScanLines(st, trailer)).parse == Close(st).parse
    ensures trailer != [] && (st.current.None? ==> st.bodyLines == []) ==> Outside(ScanLines(st, trailer))
  {
    hide MatchOptionHeading, IsNextH2, MatchOptionsHeading;
    if trailer != [] {
      var closed := ScanLine(st, trailer[0]);
      ScanOutside(closed, trailer[1..]);
    }
  }

  predicate Outside(st: Scan) {
    !st.inOptions && st.current.None? && st.bodyLines == []
  }

  /** Scanning a printed description from outside any block. */
  lemma ScanDescription(st: Scan, d: Description)
    requires Outside(st) && GoodDescription(d)
    ensures var st' := ScanLines(st, PrintDescription(d));
            && Close(st').parse == OptionsParse(CaptionText(d.summary), st.parse.options + Meanings(d.options))
            && (d.trailer != [] ==> Outside(st'))
  {
    hide ScanLine, GoodOption, MatchOptionHeading, IsNextH2, MatchOptionsHeading, Close, StripSeparator;
    var heading := "## Options" + PrintCaption(d.summary);
    var inBlock := st.(inOptions := true, parse := st.parse.(summary := CaptionText(d.summary)));
    var rest := d.intro + (PrintedOptions(d.options) + d.trailer);
    ScanOutside(st, d.preamble);
    ScanConcat(st, d.preamble, [heading] + rest);
    OpenBlock(st, d.summary);
    assert ([heading] + rest)[1..] == rest;
    ScanPlain(inBlock, d.intro);
    ScanConcat(inBlock, d.intro, PrintedOptions(d.options) + d.trailer);
    ScanOptions(inBlock, d.options);
    ScanConcat(inBlock, PrintedOptions(d.options), d.trailer);
    ScanTrailer(ScanLines(inBlock, PrintedOptions(d.options)), d.trailer);
    ClosedAlready(inBlock);
  }

  lemma ParsePrintedLines(d: Description)
    requires GoodDescription(d)
    ensures ParseLines(PrintDescription(d)) == OptionsParse(CaptionText(d.summary), Meanings(d.options))
  {
    ScanDescription(START, d);
    assert [] + Meanings(d.options) == Meanings(d.options);
  }

  /** Without an `## Options` heading nothing is parsed, whatever option headings occur. */
  lemma NoBlockNothingParsed(lines: seq<string>)
    requires OpensNowhere(lines)
    ensures ParseLines(lines) == OptionsParse("", [])
  {
    NoHeadingByText(lines);
    hide MatchOptionsHeading, MatchOptionHeading, ScanLines;
    ScanOutside(START, lines);
  }

  /** Two blocks separated by another section: the options accumulate, but only the
      later block's summary survives. */
  lemma LaterBlockReplacesSummary(d: Description, e: Description)
    requires WellFormed(d) && WellFormed(e) && d.trailer != []
    ensures ParseLines(PrintDescription(d) + PrintDescription(e))
         == OptionsParse(CaptionText(e.summary), Meanings(d.options) + Meanings(e.options))
  {
    hide ScanLines, Close, PrintDescription, GoodDescription, WellFormed;
    GoodByText(d);
    GoodByText(e);
    ScanDescription(START, d);
    var middle := ScanLines(START, PrintDescription(d));
    ScanConcat(START, PrintDescription(d), PrintDescription(e));
    ScanDescription(middle, e);
    ClosedAlready(middle);
    assert [] + Meanings(d.options) == Meanings(d.options);
  }

  lemma ClosedAlready(st: Scan)
    requires st.current.None?
    ensures Close(st) == st
  {
  }

  lemma OpenBlock(st: Scan, summary: Caption)
    requires Outside(st) && GoodCaption(summary)
    ensures ScanLine(st, "## Options" + PrintCaption(summary))
         == st.(inOptions := true, parse := st.parse.(summary := CaptionText(summary)))
  {
    hide MatchOptionsHeading, StripSeparator;
    OptionsHeadingReadsBack(summary);
  }

  lemma {:induction false} OptionsPrintable(os: seq<AuthoredOption>)
    requires forall i :: 0 <= i < |os| ==> GoodOption(os[i])
    ensures AllPrintable(PrintedOptions(os))
  {
    hide GoodOption, PrintOption, Printable;
    if os != [] {
      OptionPrintable(os[0]);
      OptionsPrintable(os[1..]);
    }
  }

  lemma OptionPrintable(o: AuthoredOption)
    requires GoodOption(o)
    ensures AllPrintable(PrintOption(o))
  {
    hide MatchOptionHeading, IsNextH2, PrintCaption, Decimal;
    DecimalDigits(o.n);
    assert '\n' !in Decimal(o.n) by { DigitsAreNotLf(Decimal(o.n)); }
    CaptionPrintable("### Option " + Decimal(o.n), o.title);
    BlanksPlain(o.before);
    BlanksPlain(o.after);
    var lines := Blanks(o.before) + o.body + Blanks(o.after);
    forall i | 0 <= i < |lines| ensures Printable(lines[i]) { assert PlainLine(lines[i]); }
  }

  lemma DigitsAreNotLf(s: string)
    requires forall i :: 0 <= i < |s| ==> IsDigit(s[i])
    ensures '\n' !in s && (s != "" ==> s[|s| - 1] != '\r')
  {
  }

  lemma CaptionPrintable(head: string, caption: Caption)
    requires GoodCaption(caption) && Printable(head)
    ensures Printable(head + PrintCaption(caption))
  {
    if caption.Captioned? {
      var line := head + PrintCaption(caption);
      if caption.text == "" {
        assert line[|line| - 1] == ' ';
      } else {
        assert line[|line| - 1] == caption.text[|caption.text| - 1];
      }
    }
  }

  lemma HeadPrintable()
    ensures Printable("## Options")
  {
  }

  /** The round trip: print any well-formed summary and options in the contract's format,
      in any surroundings, and the parser returns exactly what was meant. */
  lemma OptionsRoundTrip(d: Description)
    requires WellFormed(d)
    ensures ParseLines(Lines(Unlines(PrintDescription(d))))
         == OptionsParse(CaptionText(d.summary), Meanings(d.options))
  {
    GoodByText(d);
    PrintedReadsBack(d);
  }

  lemma PrintedReadsBack(d: Description)
    requires GoodDescription(d)
    ensures ParseLines(Lines(Unlines(PrintDescription(d))))
         == OptionsParse(CaptionText(d.summary), Meanings(d.options))
  {
    hide MatchOptionHeading, IsNextH2, MatchOptionsHeading, GoodOption, Printable, ParseLines, PrintedOptions;
    ParsePrintedLines(d);
    OptionsPrintable(d.options);
    HeadPrintable();
    CaptionPrintable("## Options", d.summary);
    forall i | 0 <= i < |d.intro| ensures Printable(d.intro[i]) { assert PlainLine(d.intro[i]); }
    LinesOfUnlines(PrintDescription(d));
  }

  /** The block is left at the first `##` heading of any kind: in any description a second
      `## Options` heading right after the options only ends the block, and neither its
      caption nor anything below it is read. */
  lemma SecondOptionsHeadingEndsTheBlock(d: Description, second: Caption, below: seq<string>)
    requires WellFormed(d) && d.trailer == [] && OpensNowhere(below)
    requires GoodCaption(second) && AllPrintable(below)
    ensures ParseLines(Lines(Unlines(PrintDescription(d) + ["## Options" + PrintCaption(second)] + below)))
         == OptionsParse(CaptionText(d.summary), Meanings(d.options))
  {
    hide GoodOption, PrintOption, MatchOptionsHeading, ParseLines, Unlines, Lines, Printable, PrintCaption;
    var heading := "## Options" + PrintCaption(second);
    var longer := d.(trailer := [heading] + below);
    HeadPrintable();
    CaptionPrintable("## Options", second);
    assert longer.trailer[0] == heading && "## " <= heading && longer.trailer[1..] == below;
    OptionsRoundTrip(longer);
    assert PrintDescription(longer) == PrintDescription(d) + [heading] + below by { TrailerLast(d, [heading] + below); }
  }

  lemma TrailerLast(d: Description, trailer: seq<string>)
    requires d.trailer == []
    ensures PrintDescription(d.(trailer := trailer)) == PrintDescription(d) + trailer
  {
    hide PrintCaption, PrintedOptions;
  }
}
