/** Splitting an agent's stdout into NDJSON lines under a size bound. */
module Framing {
  import opened Prelude
  import opened Utf8

  const MAX_LINE_BYTES := 10 * 1024 * 1024
  const LF: byte := 10
  const CR: byte := 13

  datatype ReadError = LineTooLong(len: nat, max: nat) | InvalidUtf8

  type ReadResult = Result<Option<seq<byte>>, ReadError>

  // ----------------------------------------------------------------- segments

  /** Length of the first `\n`-terminated segment, terminator included; the rest of
      the stream if there is no terminator. */
  function SegmentLen(s: seq<byte>): (n: nat)
    ensures n <= |s| && (s != [] ==> n > 0)
    ensures forall i :: 0 <= i < n - 1 ==> s[i] != LF
    ensures n < |s| ==> s[n - 1] == LF
  {
    if s == [] then 0 else if s[0] == LF then 1 else 1 + SegmentLen(s[1..])
  }

  function Segments(s: seq<byte>): seq<seq<byte>> {
    if s == [] then [] else [s[..SegmentLen(s)]] + Segments(s[SegmentLen(s)..])
  }

  function Concat(parts: seq<seq<byte>>): seq<byte> {
    if parts == [] then [] else parts[0] + Concat(parts[1..])
  }

  predicate IsSegment(s: seq<byte>, last: bool) {
    && s != []
    && (forall i :: 0 <= i < |s| - 1 ==> s[i] != LF)
    && (!last ==> s[|s| - 1] == LF)
  }

  /** The segments are the only way to cut the stream after every `\n`. */
  ghost predicate CutAfterEveryLf(parts: seq<seq<byte>>, s: seq<byte>) {
    Concat(parts) == s && forall k :: 0 <= k < |parts| ==> IsSegment(parts[k], k == |parts| - 1)
  }

  lemma CutCons(p: seq<byte>, parts: seq<seq<byte>>, s: seq<byte>)
    requires CutAfterEveryLf(parts, s) && IsSegment(p, parts == [])
    ensures CutAfterEveryLf([p] + parts, p + s)
  {
    hide IsSegment;
    var all := [p] + parts;
    assert all[1..] == parts;
    forall k | 0 <= k < |all| ensures IsSegment(all[k], k == |all| - 1) {
      if k > 0 { assert all[k] == parts[k - 1]; }
    }
  }

  lemma {:induction false} SegmentsCut(s: seq<byte>)
    ensures CutAfterEveryLf(Segments(s), s)
    decreases |s|
  {
    if s != [] {
      var n := SegmentLen(s);
      SegmentsCut(s[n..]);
      CutCons(s[..n], Segments(s[n..]), s[n..]);
      assert s[..n] + s[n..] == s;
    }
  }

  lemma {:induction false} CutIsUnique(parts: seq<seq<byte>>, s: seq<byte>)
    requires CutAfterEveryLf(parts, s)
    ensures parts == Segments(s)
  {
    if parts != [] {
      var p, rest := parts[0], Concat(parts[1..]);
      assert s == p + rest;
      assert forall i :: 0 <= i < |p| ==> s[i] == p[i];
      if |parts| == 1 { assert rest == []; }
      assert SegmentLen(s) == |p| by { FirstSegment(p, rest); }
      assert s[|p|..] == rest && s[..|p|] == p;
      CutIsUnique(parts[1..], rest);
      assert parts == [p] + parts[1..];
    }
  }

  lemma {:induction false} FirstSegment(p: seq<byte>, rest: seq<byte>)
    requires IsSegment(p, rest == [])
    ensures SegmentLen(p + rest) == |p|
  {
    var s := p + rest;
    if |p| > 1 {
      FirstSegment(p[1..], rest);
      assert s[1..] == p[1..] + rest;
    } else if rest == [] {
      assert s[1..] == [];
    }
  }

  // -------------------------------------------------------------- line by line

  /** `trim_end_matches(['\n', '\r'])`. */
  function Trim(s: seq<byte>): (t: seq<byte>)
    ensures t <= s
    ensures t != [] ==> t[|t| - 1] != LF && t[|t| - 1] != CR
  {
    if s != [] && (s[|s| - 1] == LF || s[|s| - 1] == CR) then Trim(s[..|s| - 1]) else s
  }

  datatype Outcome = Text(text: seq<byte>) | Blank | Bad(error: ReadError)

  /** What one raw segment is to the reader. */
  function Classify(segment: seq<byte>): Outcome {
    if !Valid(segment) then Bad(InvalidUtf8)
    else if |segment| > MAX_LINE_BYTES then Bad(LineTooLong(|segment|, MAX_LINE_BYTES))
    else if Trim(segment) == [] then Blank
    else Text(Trim(segment))
  }

  /** One `next_line` call: its result, and the segments left unread. */
  function NextResult(segments: seq<seq<byte>>): (ReadResult, seq<seq<byte>>) {
    if segments == [] then (Ok(None), [])
    else match Classify(segments[0])
      case Text(text) => (Ok(Some(text)), segments[1..])
      case Bad(error) => (Err(error), segments[1..])
      case Blank => NextResult(segments[1..])
  }

  class NdjsonReader {
    /** Bytes the agent has written and the reader has not consumed. */
    var unread: seq<byte>
    var lineBuf: seq<byte>

    constructor (stdout: seq<byte>)
      ensures unread == stdout && lineBuf == []
    {
      unread, lineBuf := stdout, [];
    }

    /** `BufReader::read_line`: append the next segment to the buffer, or consume it
        and report that it is not UTF-8. */
    method ReadLine() returns (n: Result<nat, ReadError>)
      modifies this
      ensures var k := SegmentLen(old(unread)); var segment := old(unread)[..k];
        && unread == old(unread)[k..]
        && (if Valid(segment) then n == Ok(k) && lineBuf == old(lineBuf) + segment
            else n == Err(InvalidUtf8) && lineBuf == old(lineBuf))
    {
      var k := 0;
      while k < |unread| && (k == 0 || unread[k - 1] != LF)
        invariant k <= |unread|
        invariant forall i :: 0 <= i < k - 1 ==> unread[i] != LF
      {
        k := k + 1;
      }
      var segment := unread[..k];
      assert k == SegmentLen(unread) by {
        assert unread == segment + unread[k..];
        if k > 0 { FirstSegment(segment, unread[k..]); }
      }
      unread := unread[k..];
      if !Valid(segment) { return Err(InvalidUtf8); }
      lineBuf := lineBuf + segment;
      n := Ok(k);
    }

    method NextLine() returns (r: ReadResult)
      modifies this
      ensures (r, Segments(unread)) == NextResult(Segments(old(unread)))
      ensures r.Ok? && r.value.Some? ==> lineBuf == r.value.value
      ensures |unread| <= |old(unread)| && (r != Ok(None) ==> |unread| < |old(unread)|)
    {
      while true
        invariant |unread| <= |old(unread)|
        invariant NextResult(Segments(unread)) == NextResult(Segments(old(unread)))
        decreases |unread|
      {
        lineBuf := [];
        ghost var before := unread;
        var n := ReadLine();
        ghost var segment := before[..SegmentLen(before)];
        assert before != [] ==> Segments(before) == [segment] + Segments(unread);
        if n.Err? { return Err(n.error); }
        if n.value == 0 { return Ok(None); }
        assert lineBuf == segment;
        if |lineBuf| > MAX_LINE_BYTES {
          return Err(LineTooLong(|lineBuf|, MAX_LINE_BYTES));
        }
        TrimBuffer();
        if lineBuf != [] { return Ok(Some(lineBuf)); }
      }
    }

    /** The in-place `trim_end_matches` and `truncate` on the line buffer. */
    method TrimBuffer()
      modifies this`lineBuf
      ensures lineBuf == Trim(old(lineBuf))
    {
      while lineBuf != [] && (lineBuf[|lineBuf| - 1] == LF || lineBuf[|lineBuf| - 1] == CR)
        invariant Trim(lineBuf) == Trim(old(lineBuf))
        decreases |lineBuf|
      {
        lineBuf := lineBuf[..|lineBuf| - 1];
      }
    }
  }

  // ----------------------------------------------------------- repeated reads

  /** The lines repeated `next_line` calls return, and the error that ends them. */
  function ReadAll(segments: seq<seq<byte>>): (seq<seq<byte>>, Option<ReadError>)
    decreases |segments|
  {
    var (r, rest) := NextResult(segments);
    if r.Err? then ([], Some(r.error))
    else if r.value.None? then ([], None)
    else
      NextResultShrinks(segments);
      var (lines, end) := ReadAll(rest);
      ([r.value.value] + lines, end)
  }

  lemma {:induction false} NextResultShrinks(segments: seq<seq<byte>>)
    ensures var (r, rest) := NextResult(segments);
            |rest| <= |segments| && (r != Ok(None) ==> |rest| < |segments|)
  {
    if segments != [] && Classify(segments[0]).Blank? { NextResultShrinks(segments[1..]); }
  }

  /** Index of the first segment that cannot be read. */
  function FirstBad(segments: seq<seq<byte>>): (k: nat)
    ensures k <= |segments|
    ensures forall i :: 0 <= i < k ==> !Classify(segments[i]).Bad?
    ensures k < |segments| ==> Classify(segments[k]).Bad?
  {
    if segments == [] || Classify(segments[0]).Bad? then 0 else 1 + FirstBad(segments[1..])
  }

  /** The segments with their terminators stripped and the empty ones dropped. */
  function NonEmptyTrimmed(segments: seq<seq<byte>>): seq<seq<byte>> {
    if segments == [] then []
    else (if Trim(segments[0]) == [] then [] else [Trim(segments[0])]) + NonEmptyTrimmed(segments[1..])
  }

  lemma ClassifyShape(segment: seq<byte>)
    ensures match Classify(segment)
            case Text(text) => text == Trim(segment) != []
            case Blank => Trim(segment) == []
            case Bad(_) => true
  {
  }

  /** Repeated reads see the trimmed non-empty segments up to the first bad one. */
  lemma {:induction false} ReadAllIsTrimmedSegments(segments: seq<seq<byte>>)
    ensures var k := FirstBad(segments);
            ReadAll(segments) == (NonEmptyTrimmed(segments[..k]),
                                  if k < |segments| then Some(Classify(segments[k]).error) else None)
    decreases |segments|
  {
    hide Classify, Trim;
    if segments != [] && !Classify(segments[0]).Bad? {
      var k := FirstBad(segments);
      var first, rest := segments[0], segments[1..];
      ReadAllIsTrimmedSegments(rest);
      ClassifyShape(first);
      assert k == 1 + FirstBad(rest);
      assert segments[..k][1..] == rest[..k - 1] && segments[..k][0] == first;
      if Classify(first).Blank? {
        assert NextResult(segments) == NextResult(rest);
        assert ReadAll(segments) == ReadAll(rest);
        assert NonEmptyTrimmed(segments[..k]) == NonEmptyTrimmed(rest[..k - 1]);
      } else {
        assert NextResult(segments) == (Ok(Some(Trim(first))), rest);
      }
    }
  }

  // -------------------------------------------------------------- round trip

  /** One written line: its text and how many CRs precede the terminating LF. */
  datatype Written = Written(text: seq<byte>, crs: nat)

  function Crs(n: nat): seq<byte> {
    if n == 0 then [] else Crs(n - 1) + [CR]
  }

  function Encode(w: Written): seq<byte> {
    w.text + Crs(w.crs) + [LF]
  }

  function EncodeAll(ws: seq<Written>): seq<seq<byte>> {
    if ws == [] then [] else [Encode(ws[0])] + EncodeAll(ws[1..])
  }

  /** Text a line can carry: UTF-8, no `\n`, no trailing `\r`.  Empty text is a blank line. */
  predicate Carriable(text: seq<byte>) {
    Valid(text) && LF !in text && (text != [] ==> text[|text| - 1] != CR)
  }

  predicate Fits(w: Written) {
    Carriable(w.text) && |w.text| + w.crs + 1 <= MAX_LINE_BYTES
  }

  function NonEmptyTexts(ws: seq<Written>): seq<seq<byte>> {
    if ws == [] then []
    else (if ws[0].text == [] then [] else [ws[0].text]) + NonEmptyTexts(ws[1..])
  }

  lemma {:induction false} CrsOnly(n: nat)
    ensures |Crs(n)| == n && Valid(Crs(n)) && LF !in Crs(n)
  {
    if n > 0 {
      CrsOnly(n - 1);
      AsciiByte(CR);
      ValidConcat(Crs(n - 1), [CR]);
    }
  }

  lemma AsciiByte(b: byte)
    requires b < 0x80
    ensures Valid([b])
  {
    assert [b][1..] == [];
  }

  lemma TrimAppend(a: seq<byte>, b: byte)
    requires b == LF || b == CR
    ensures Trim(a + [b]) == Trim(a)
  {
    assert (a + [b])[..|a|] == a;
  }

  lemma TrimClean(a: seq<byte>)
    requires a != [] ==> a[|a| - 1] != CR && a[|a| - 1] != LF
    ensures Trim(a) == a
  {
  }

  lemma {:induction false} TrimCrs(text: seq<byte>, n: nat)
    requires text != [] ==> text[|text| - 1] != CR && text[|text| - 1] != LF
    ensures Trim(text + Crs(n)) == text
  {
    hide Trim, Valid;
    if n == 0 {
      assert text + [] == text;
      TrimClean(text);
    } else {
      assert text + Crs(n) == (text + Crs(n - 1)) + [CR];
      TrimAppend(text + Crs(n - 1), CR);
      TrimCrs(text, n - 1);
    }
  }

  lemma EncodedSegment(w: Written)
    requires Carriable(w.text)
    ensures IsSegment(Encode(w), false) && |Encode(w)| == |w.text| + w.crs + 1
    ensures Valid(Encode(w)) && Trim(Encode(w)) == w.text
  {
    hide Valid, Crs, Trim;
    var e := Encode(w);
    CrsOnly(w.crs);
    AsciiByte(LF);
    ValidConcat(w.text, Crs(w.crs));
    ValidConcat(w.text + Crs(w.crs), [LF]);
    TrimAppend(w.text + Crs(w.crs), LF);
    TrimCrs(w.text, w.crs);
  }

  lemma Single(s: seq<byte>)
    ensures Concat([s]) == s
  {
    var none: seq<seq<byte>> := [];
    assert [s][1..] == none;
    assert Concat(none) == [];
    assert s + [] == s;
  }

  function Unterminated(tail: seq<byte>): seq<seq<byte>> {
    if tail == [] then [] else [tail]
  }

  predicate Writable(ws: seq<Written>, tail: seq<byte>) {
    (forall k :: 0 <= k < |ws| ==> Fits(ws[k])) && Carriable(tail) && |tail| <= MAX_LINE_BYTES
  }

  lemma WeakenSegment(p: seq<byte>, last: bool)
    requires IsSegment(p, false)
    ensures IsSegment(p, last)
  {
  }

  lemma LastSegment(p: seq<byte>)
    requires p != [] && LF !in p
    ensures IsSegment(p, true)
  {
  }

  lemma {:induction false} EncodedCut(ws: seq<Written>, tail: seq<byte>)
    requires Writable(ws, tail)
    ensures CutAfterEveryLf(EncodeAll(ws) + Unterminated(tail), Concat(EncodeAll(ws)) + tail)
  {
    hide Encode, Valid, IsSegment;
    var last := Unterminated(tail);
    if ws == [] {
      assert EncodeAll(ws) + last == last;
      if tail != [] {
        Single(tail);
        LastSegment(tail);
      }
    } else {
      EncodedSegment(ws[0]);
      EncodedCut(ws[1..], tail);
      var first, rest := Encode(ws[0]), EncodeAll(ws[1..]);
      WeakenSegment(first, rest + last == []);
      CutCons(first, rest + last, Concat(rest) + tail);
      assert EncodeAll(ws) + last == [first] + (rest + last);
      assert EncodeAll(ws)[1..] == rest;
      assert Concat(EncodeAll(ws)) + tail == first + (Concat(rest) + tail);
    }
  }

  lemma {:induction false} EncodedTexts(ws: seq<Written>, tail: seq<byte>)
    requires Writable(ws, tail)
    ensures var parts := EncodeAll(ws) + Unterminated(tail);
            && FirstBad(parts) == |parts|
            && NonEmptyTrimmed(parts) == NonEmptyTexts(ws) + Unterminated(tail)
  {
    hide Encode, Valid, Trim, Classify, FirstBad, NonEmptyTrimmed, Carriable;
    var last := Unterminated(tail);
    if ws == [] {
      assert EncodeAll(ws) + last == last && NonEmptyTexts(ws) + last == last;
      LastText(tail);
    } else {
      var first, rest := Encode(ws[0]), EncodeAll(ws[1..]) + last;
      EncodedSegment(ws[0]);
      EncodedTexts(ws[1..], tail);
      assert EncodeAll(ws) + last == [first] + rest;
      OneMoreText(first, rest);
      var own := if ws[0].text == [] then [] else [ws[0].text];
      assert own + (NonEmptyTexts(ws[1..]) + last) == NonEmptyTexts(ws) + last;
    }
  }

  lemma LastText(tail: seq<byte>)
    requires Carriable(tail) && |tail| <= MAX_LINE_BYTES
    ensures FirstBad(Unterminated(tail)) == |Unterminated(tail)|
    ensures NonEmptyTrimmed(Unterminated(tail)) == Unterminated(tail)
  {
    hide Valid;
    if tail != [] {
      var none: seq<seq<byte>> := [];
      assert [tail][1..] == none;
      assert Trim(tail) == tail;
    }
  }

  lemma OneMoreText(first: seq<byte>, rest: seq<seq<byte>>)
    requires Valid(first) && |first| <= MAX_LINE_BYTES
    ensures FirstBad([first] + rest) == 1 + FirstBad(rest)
    ensures NonEmptyTrimmed([first] + rest) == (if Trim(first) == [] then [] else [Trim(first)]) + NonEmptyTrimmed(rest)
  {
    hide Trim, Valid;
    assert ([first] + rest)[1..] == rest;
  }

  /** Any lines, each with its own line ending, blank lines anywhere, and an optional
      unterminated last line, read back exactly as written. */
  lemma FramingRoundTrip(ws: seq<Written>, tail: seq<byte>)
    requires Writable(ws, tail)
    ensures ReadAll(Segments(Concat(EncodeAll(ws)) + tail)) == (NonEmptyTexts(ws) + Unterminated(tail), None)
  {
    EncodedCut(ws, tail);
    EncodedTexts(ws, tail);
    var parts := EncodeAll(ws) + Unterminated(tail);
    CutIsUnique(parts, Concat(EncodeAll(ws)) + tail);
    ReadAllIsTrimmedSegments(parts);
    assert parts[..|parts|] == parts;
  }

  /** The cap counts the terminator: a line is read back iff text, CRs and LF together
      stay within it. */
  lemma CapCountsTerminator(w: Written)
    requires Carriable(w.text) && w.text != []
    ensures ReadAll(Segments(Encode(w))) == ([w.text], None) <==> |w.text| + w.crs + 1 <= 10_485_760
  {
    EncodedSegment(w);
    var e := Encode(w);
    Single(e);
    CutIsUnique([e], e);
    if |e| <= MAX_LINE_BYTES {
      FramingRoundTrip([w], []);
      assert EncodeAll([w]) == [e] && e + [] == e;
      assert NonEmptyTexts([w]) == [w.text];
    } else {
      assert Classify(e).Bad?;
    }
  }
}
