/** Truncation of the failure text threaded into the next attempt's prompt. */
module PreviousFailure {
  import opened Utf8

  const MAX_LEN := 4000

  /** `r` is the longest valid prefix of `s` that respects the cap. */
  ghost predicate LongestValidPrefix(r: seq<byte>, s: seq<byte>) {
    && r <= s && |r| <= 4000 && Valid(r)
    && forall p: seq<byte> :: p <= s && |p| <= 4000 && Valid(p) ==> p <= r
  }

  method Truncate(text: seq<byte>) returns (s: seq<byte>)
    requires Valid(text)
    ensures LongestValidPrefix(s, text)
    ensures |text| <= 4000 ==> s == text
    ensures |text| > 4000 ==> 3997 <= |s| <= 4000
  {
    s := text;
    if |s| > MAX_LEN {
      var cut := MAX_LEN;
      ghost var near := BoundaryNearby(text, MAX_LEN);
      while !IsCharBoundary(s, cut) && cut > 0
        invariant near <= cut <= MAX_LEN
        invariant forall i :: cut < i <= MAX_LEN ==> !IsCharBoundary(text, i)
      {
        cut := cut - 1;
      }
      s := s[..cut];
      BoundarySplits(text, cut);
      forall p: seq<byte> | p <= text && |p| <= MAX_LEN && Valid(p) ensures p <= s {
        assert p == text[..|p|];
        ValidPrefixEndsAtBoundary(text, |p|);
      }
    } else {
      assert forall p: seq<byte> :: p <= text ==> |p| <= |text|;
    }
  }

  /** Truncating a second time changes nothing. */
  lemma TruncationIdempotent(s: seq<byte>, once: seq<byte>, twice: seq<byte>)
    requires LongestValidPrefix(once, s) && LongestValidPrefix(twice, once)
    ensures twice == once
  {
    assert once <= once;
  }

  /** Cutting at the longest prefix never loses a whole character that still fit: the
      text continues with one that would cross the cap. */
  lemma NextCharacterDoesNotFit(s: seq<byte>, r: seq<byte>)
    requires Valid(s) && LongestValidPrefix(r, s) && r != s
    ensures |r| + CharLen(s[|r|..]) > 4000
  {
    hide CharLen, Valid;
    assert s[..|r|] == r;
    ValidPrefixEndsAtBoundary(s, |r|);
    BoundarySplits(s, |r|);
    var rest := s[|r|..];
    var n := CharLen(rest);
    BoundarySplitsFirst(rest);
    ValidConcat(r, rest[..n]);
    var longer := s[..|r| + n];
    assert r + rest[..n] == longer;
    assert |longer| <= MAX_LEN ==> longer <= r;
  }

  lemma BoundarySplitsFirst(s: seq<byte>)
    requires Valid(s) && s != []
    ensures CharLen(s) > 0 && Valid(s[..CharLen(s)])
  {
    var n := CharLen(s);
    StartsClean(s[n..]);
    BoundarySplits(s, n);
  }
}
