/** Bead identifiers, the log files named after them, and the filter that finds a
    bead's logs again. */
module BeadLog {
  import opened Prelude
  import opened Text
  import opened Calendar
  import opened CivilDays
  import opened UtcStamp

  predicate IsLower(c: char) { 'a' <= c <= 'z' }

  predicate IsTail(c: char) { IsLower(c) || IsDigit(c) }

  predicate AllOf(s: string, p: char -> bool) {
    forall i :: 0 <= i < |s| ==> p(s[i])
  }

  /** `BeadId::new`: the parsed id, or the rejected input. */
  function ParseBeadId(s: string): Result<string, string> {
    match SplitOnce(s, '-')
    case None => Err(s)
    case Some((prefix, rest)) =>
      if prefix == "" || !AllOf(prefix, IsLower) then Err(s) else
        var (body, suffix) := match SplitOnce(rest, '.')
          case Some((body, suffix)) => (body, Some(suffix))
          case None => (rest, None);
        if body == "" || !AllOf(body, IsTail) then Err(s)
        else if suffix.Some? && (suffix.value == "" || !AllOf(suffix.value, IsDigit)) then Err(s)
        else Ok(s)
  }

  const LETTERS := "abcdefghijklmnopqrstuvwxyz"
  const DIGITS := "0123456789"

  lemma Alphabets(c: char)
    ensures IsLower(c) <==> c in LETTERS
    ensures IsDigit(c) <==> c in DIGITS
  {
    if IsLower(c) { assert LETTERS[c as int - 'a' as int] == c; }
    if IsDigit(c) { assert DIGITS[c as int - '0' as int] == c; }
  }

  predicate Over(s: string, alphabet: string) {
    s != "" && forall c :: c in s ==> c in alphabet
  }

  /** The documented grammar `<prefix>-<base32>(.<digits>)?`, written generatively. */
  ghost predicate Spells(s: string, prefix: string, body: string, suffix: Option<string>) {
    && Over(prefix, LETTERS) && Over(body, LETTERS + DIGITS) && (suffix.Some? ==> Over(suffix.value, DIGITS))
    && s == prefix + "-" + body + (if suffix.Some? then "." + suffix.value else "")
  }

  ghost predicate ValidBeadId(s: string) {
    exists prefix, body, suffix :: Spells(s, prefix, body, suffix)
  }

  /** The same, by the recogniser's character tests. */
  ghost predicate Passes(s: string, prefix: string, body: string, suffix: Option<string>) {
    && prefix != "" && AllOf(prefix, IsLower) && body != "" && AllOf(body, IsTail)
    && (suffix.Some? ==> suffix.value != "" && AllOf(suffix.value, IsDigit))
    && s == prefix + "-" + body + (if suffix.Some? then "." + suffix.value else "")
  }

  lemma AlphabetsTested(s: string)
    ensures Over(s, LETTERS) <==> s != "" && AllOf(s, IsLower)
    ensures Over(s, DIGITS) <==> s != "" && AllOf(s, IsDigit)
    ensures Over(s, LETTERS + DIGITS) <==> s != "" && AllOf(s, IsTail)
  {
    hide IsLower, IsDigit;
    forall c ensures (IsLower(c) <==> c in LETTERS) && (IsDigit(c) <==> c in DIGITS) { Alphabets(c); }
    assert forall i :: 0 <= i < |s| ==> s[i] in s;
  }

  lemma PassesIffSpells(s: string, prefix: string, body: string, suffix: Option<string>)
    ensures Spells(s, prefix, body, suffix) <==> Passes(s, prefix, body, suffix)
  {
    hide Over, AllOf;
    AlphabetsTested(prefix);
    AlphabetsTested(body);
    if suffix.Some? { AlphabetsTested(suffix.value); }
  }

  /** The recogniser accepts exactly the grammar, and keeps the text. */
  lemma BeadIdAcceptsGrammar(s: string)
    ensures ParseBeadId(s) == (if ValidBeadId(s) then Ok(s) else Err(s))
  {
    hide Spells, Passes;
    if ParseBeadId(s).Ok? {
      var prefix, body, suffix := AcceptedPasses(s);
      PassesIffSpells(s, prefix, body, suffix);
    }
    if ValidBeadId(s) {
      var prefix, body, suffix :| Spells(s, prefix, body, suffix);
      PassesIffSpells(s, prefix, body, suffix);
      SpelledIsAccepted(s, prefix, body, suffix);
    }
  }

  lemma AcceptedPasses(s: string) returns (prefix: string, body: string, suffix: Option<string>)
    requires ParseBeadId(s).Ok?
    ensures Passes(s, prefix, body, suffix)
  {
    hide AllOf;
    prefix := SplitOnce(s, '-').value.0;
    var rest := SplitOnce(s, '-').value.1;
    assert s == prefix + "-" + rest;
    body, suffix := rest, None;
    if SplitOnce(rest, '.').Some? {
      body, suffix := SplitOnce(rest, '.').value.0, Some(SplitOnce(rest, '.').value.1);
      assert rest == body + "." + suffix.value;
    }
    assert s == prefix + "-" + body + (if suffix.Some? then "." + suffix.value else "");
  }

  lemma SpelledIsAccepted(s: string, prefix: string, body: string, suffix: Option<string>)
    requires Passes(s, prefix, body, suffix)
    ensures ParseBeadId(s) == Ok(s)
  {
    var tail := if suffix.Some? then "." + suffix.value else "";
    var rest := body + tail;
    assert s == prefix + ['-'] + rest;
    FirstIndexAt(prefix, '-', rest);
    assert s[..|prefix|] == prefix && s[|prefix| + 1..] == rest;
    if suffix.Some? {
      assert rest == body + ['.'] + suffix.value;
      FirstIndexAt(body, '.', suffix.value);
      assert rest[..|body|] == body && rest[|body| + 1..] == suffix.value;
    } else {
      assert rest == body;
      FirstIndexMissing(body, '.');
    }
  }

  // --------------------------------------------------------- log files by name

  /** The file name `bead_log_path` gives a log; the directory part is the spec label. */
  function LogFileName(bead: string, secs: u64): string {
    bead + "-" + Stamp(UtcParts(secs)) + ".ndjson"
  }

  /** `file_stem_belongs_to`. */
  predicate BelongsTo(name: string, bead: string) {
    var stem := FileStem(name);
    stem == bead || bead + "-" <= stem
  }

  lemma LogStem(bead: string, secs: u64)
    requires bead != ""
    ensures FileStem(LogFileName(bead, secs)) == bead + "-" + Stamp(UtcParts(secs))
    ensures Extension(LogFileName(bead, secs)) == Some("ndjson")
  {
    hide Stamp, UtcParts;
    var stem, name := bead + "-" + Stamp(UtcParts(secs)), LogFileName(bead, secs);
    assert name == stem + ['.'] + "ndjson";
    LastIndexAt(stem, '.', "ndjson");
    assert name[..|stem|] == stem && name[|stem| + 1..] == "ndjson";
  }

  lemma NoSlash(s: string)
    requires ValidBeadId(s)
    ensures '/' !in s
  {
    var prefix, body, suffix :| Spells(s, prefix, body, suffix);
    PassesIffSpells(s, prefix, body, suffix);
    assert '/' !in prefix && '/' !in body && (suffix.Some? ==> '/' !in suffix.value);
  }

  /** A valid id has exactly one dash. */
  lemma OneDash(s: string) returns (dash: nat)
    requires ValidBeadId(s)
    ensures dash < |s| && s[dash] == '-'
    ensures forall i :: 0 <= i < |s| && s[i] == '-' ==> i == dash
  {
    var prefix, body, suffix :| Spells(s, prefix, body, suffix);
    PassesIffSpells(s, prefix, body, suffix);
    dash := |prefix|;
    var tail := if suffix.Some? then "." + suffix.value else "";
    assert '-' !in prefix && '-' !in body && '-' !in tail;
    assert s == prefix + "-" + body + tail;
    assert s[..dash] == prefix && s[dash + 1..] == body + tail;
    assert forall i :: 0 <= i < dash ==> s[i] == prefix[i];
    assert forall i :: dash < i < |s| ==> s[i] == (body + tail)[i - dash - 1];
  }

  /** The log filter is exact: a bead's logs belong to that bead and to no other, at
      whatever time they were written. */
  lemma LogFilterExact(bead: string, other: string, secs: u64)
    requires ValidBeadId(bead) && ValidBeadId(other)
    ensures BelongsTo(LogFileName(bead, secs), other) <==> bead == other
  {
    hide Stamp, UtcParts;
    LogStem(bead, secs);
    var stamp := Stamp(UtcParts(secs));
    var stem := bead + "-" + stamp;
    var d := OneDash(bead);
    var e := OneDash(other);
    assert bead + "-" <= stem && stem[d] == '-' && stem[|bead|] == '-';
    assert forall i :: 0 <= i < |bead| ==> stem[i] == bead[i];
    assert stem != other;
    if other + "-" <= stem {
      assert stem[e] == '-' && stem[|other|] == '-';
      assert forall i :: 0 <= i < |other| ==> stem[i] == other[i];
      assert |other| == |bead|;
    }
  }

  /** Distinct (bead, second) pairs never share a log file. */
  lemma LogNamesDistinct(bead1: string, secs1: u64, bead2: string, secs2: u64)
    requires ValidBeadId(bead1) && ValidBeadId(bead2)
    requires secs1 < YEAR_10000 && secs2 < YEAR_10000
    ensures LogFileName(bead1, secs1) == LogFileName(bead2, secs2) ==> bead1 == bead2 && secs1 == secs2
  {
    hide Stamp, UtcParts;
    LogFilterExact(bead1, bead1, secs1);
    LogFilterExact(bead2, bead1, secs2);
    var s1, s2 := Stamp(UtcParts(secs1)), Stamp(UtcParts(secs2));
    var n1, n2 := LogFileName(bead1, secs1), LogFileName(bead2, secs2);
    assert n1[|bead1| + 1..|n1| - 7] == s1 && n2[|bead2| + 1..|n2| - 7] == s2;
    StampInjective(secs1, secs2);
  }

  // ----------------------------------------------------------- log selection

  /** One regular file two levels below the logs root, with its modification time. */
  datatype LogFile = LogFile(dir: string, name: string, mtime: int)

  /** The files `select_log` keeps, before the newest is taken. */
  predicate Candidate(f: LogFile, bead: Option<string>) {
    Extension(f.name) == Some("ndjson") && (bead.Some? ==> BelongsTo(f.name, bead.value))
  }

  /** In a directory of per-bead logs the filter keeps exactly the bead's own files. */
  lemma CandidatesAreOwnLogs(files: seq<LogFile>, owners: seq<string>, secs: seq<u64>, bead: string)
    requires |files| == |owners| == |secs|
    requires ValidBeadId(bead) && forall i :: 0 <= i < |files| ==> ValidBeadId(owners[i])
    requires forall i :: 0 <= i < |files| ==> files[i].name == LogFileName(owners[i], secs[i])
    ensures forall i :: 0 <= i < |files| ==> (Candidate(files[i], Some(bead)) <==> owners[i] == bead)
  {
    hide BelongsTo, LogFileName, Extension, FileStem, ValidBeadId;
    forall i | 0 <= i < |files| ensures Candidate(files[i], Some(bead)) <==> owners[i] == bead {
      var dash := OneDash(owners[i]);
      LogStem(owners[i], secs[i]);
      LogFilterExact(owners[i], bead, secs[i]);
    }
  }

  /** `files` in the order the directory walk meets them.  The stable sort by
      descending mtime followed by `next()` takes the earliest newest candidate. */
  method SelectLog(files: seq<LogFile>, bead: Option<string>) returns (r: Option<LogFile>)
    ensures r.None? <==> forall f :: f in files ==> !Candidate(f, bead)
    ensures r.Some? ==> r.value in files && Candidate(r.value, bead)
    ensures r.Some? ==> forall f :: f in files && Candidate(f, bead) ==> f.mtime <= r.value.mtime
    ensures r.Some? ==> exists k ::
      && 0 <= k < |files| && files[k] == r.value
      && forall i :: 0 <= i < k && Candidate(files[i], bead) ==> files[i].mtime < r.value.mtime
  {
    hide Candidate;
    r := None;
    ghost var at := -1;
    for i := 0 to |files|
      invariant r.None? <==> forall k :: 0 <= k < i ==> !Candidate(files[k], bead)
      invariant r.Some? ==> 0 <= at < i && files[at] == r.value && Candidate(r.value, bead)
      invariant r.Some? ==> forall k :: 0 <= k < i && Candidate(files[k], bead) ==>
        files[k].mtime <= r.value.mtime && (k < at ==> files[k].mtime < r.value.mtime)
    {
      if Candidate(files[i], bead) && (r.None? || files[i].mtime > r.value.mtime) {
        r, at := Some(files[i]), i;
      }
    }
  }
}
