/** Well-formed UTF-8 (section 4 of RFC 3629) and its character boundaries. */
module Utf8 {

  type byte = b: int | 0 <= b < 256

  predicate IsTail(b: byte) { 0x80 <= b <= 0xBF }

  /** Byte length of the well-formed character `s` starts with, or 0 if there is none. */
  function CharLen(s: seq<byte>): (n: nat)
    ensures n <= 4 && n <= |s|
    ensures n > 0 ==> !IsTail(s[0]) && forall i :: 0 < i < n ==> IsTail(s[i])
  {
    if |s| >= 1 && s[0] <= 0x7F then 1
    else if |s| >= 2 && 0xC2 <= s[0] <= 0xDF && IsTail(s[1]) then 2
    else if |s| >= 3 && IsTail(s[1]) && IsTail(s[2]) && (
      || (s[0] == 0xE0 && s[1] >= 0xA0)
      || (0xE1 <= s[0] <= 0xEC)
      || (s[0] == 0xED && s[1] <= 0x9F)
      || (0xEE <= s[0] <= 0xEF)) then 3
    else if |s| >= 4 && IsTail(s[1]) && IsTail(s[2]) && IsTail(s[3]) && (
      || (s[0] == 0xF0 && s[1] >= 0x90)
      || (0xF1 <= s[0] <= 0xF3)
      || (s[0] == 0xF4 && s[1] <= 0x8F)) then 4
    else 0
  }

  /** A Unicode scalar value: a code point that is no surrogate. */
  predicate IsScalar(cp: int) {
    0 <= cp <= 0x10FFFF && !(0xD800 <= cp <= 0xDFFF)
  }

  /** The encoding of section 3 of RFC 3629. */
  function EncodeChar(cp: int): seq<byte>
    requires IsScalar(cp)
  {
    if cp < 0x80 then [cp]
    else if cp < 0x800 then [0xC0 + cp / 0x40, 0x80 + cp % 0x40]
    else if cp < 0x1_0000 then [0xE0 + cp / 0x1000, 0x80 + cp / 0x40 % 0x40, 0x80 + cp % 0x40]
    else [0xF0 + cp / 0x4_0000, 0x80 + cp / 0x1000 % 0x40, 0x80 + cp / 0x40 % 0x40, 0x80 + cp % 0x40]
  }

  /** The code point a well-formed character stands for. */
  function DecodeChar(s: seq<byte>): int
    requires CharLen(s) > 0
  {
    var at := (i: nat) => if i < |s| then s[i] as int else 0;
    match CharLen(s)
    case 1 => at(0)
    case 2 => (at(0) - 0xC0) * 0x40 + (at(1) - 0x80)
    case 3 => (at(0) - 0xE0) * 0x1000 + (at(1) - 0x80) * 0x40 + (at(2) - 0x80)
    case _ => (at(0) - 0xF0) * 0x4_0000 + (at(1) - 0x80) * 0x1000 + (at(2) - 0x80) * 0x40 + (at(3) - 0x80)
  }

  /** What starts with the encoding of a scalar value starts with a character of that length. */
  lemma EncodedIsAccepted(cp: int, rest: seq<byte>)
    requires IsScalar(cp)
    ensures CharLen(EncodeChar(cp) + rest) == |EncodeChar(cp)|
    ensures DecodeChar(EncodeChar(cp) + rest) == cp
  {
    var e := EncodeChar(cp);
    var s := e + rest;
    assert forall i :: 0 <= i < |e| ==> s[i] == e[i];
    SixBits(cp);
    SixBits(cp / 0x40);
    SixBits(cp / 0x1000);
    Shifted(cp);
  }

  lemma SixBits(n: int)
    ensures n == n / 0x40 * 0x40 + n % 0x40 && 0 <= n % 0x40 < 0x40
  {
  }

  lemma Shifted(cp: int)
    ensures cp / 0x40 / 0x40 == cp / 0x1000 && cp / 0x1000 / 0x40 == cp / 0x4_0000
  {
  }

  /** Every accepted character is the encoding of the scalar value it stands for, and of no
      shorter or longer prefix. */
  lemma AcceptedIsEncoded(s: seq<byte>)
    requires CharLen(s) > 0
    ensures IsScalar(DecodeChar(s)) && EncodeChar(DecodeChar(s)) == s[..CharLen(s)]
  {
    var n, cp := CharLen(s), DecodeChar(s);
    assert forall i :: 0 < i < n ==> IsTail(s[i]);
    if n == 2 {
      Digits2(s[0] - 0xC0, s[1] - 0x80, cp);
    } else if n == 3 {
      Digits3(s[0] - 0xE0, s[1] - 0x80, s[2] - 0x80, cp);
    } else if n == 4 {
      Digits4(s[0] - 0xF0, s[1] - 0x80, s[2] - 0x80, s[3] - 0x80, cp);
    }
    hide IsTail;
    assert EncodeChar(cp) == s[..n];
  }

  lemma Digits2(a: int, b: int, cp: int)
    requires 0 <= b < 0x40 && cp == a * 0x40 + b
    ensures cp / 0x40 == a && cp % 0x40 == b
  {
  }

  lemma Digits3(a: int, b: int, c: int, cp: int)
    requires 0 <= b < 0x40 && 0 <= c < 0x40 && cp == a * 0x1000 + b * 0x40 + c
    ensures cp / 0x1000 == a && cp / 0x40 % 0x40 == b && cp % 0x40 == c
  {
    Digits2(a * 0x40 + b, c, cp);
    Digits2(a, b, cp / 0x40);
    Shifted(cp);
  }

  lemma Digits4(a: int, b: int, c: int, d: int, cp: int)
    requires 0 <= b < 0x40 && 0 <= c < 0x40 && 0 <= d < 0x40
    requires cp == a * 0x4_0000 + b * 0x1000 + c * 0x40 + d
    ensures cp / 0x4_0000 == a && cp / 0x1000 % 0x40 == b && cp / 0x40 % 0x40 == c && cp % 0x40 == d
  {
    Digits2(a * 0x1000 + b * 0x40 + c, d, cp);
    Digits3(a, b, c, cp / 0x40);
    Shifted(cp);
    Shifted(cp / 0x40);
  }

  predicate Valid(s: seq<byte>) {
    s == [] || (CharLen(s) > 0 && Valid(s[CharLen(s)..]))
  }

  /** Rust's `str::is_char_boundary`. */
  predicate IsCharBoundary(s: seq<byte>, i: nat) {
    i == 0 || i == |s| || (i < |s| && !IsTail(s[i]))
  }

  /** Only the bytes of the first character decide its length. */
  lemma CharLenLocal(s: seq<byte>, t: seq<byte>)
    requires CharLen(s) > 0 && s[..CharLen(s)] <= t
    ensures CharLen(t) == CharLen(s)
  {
    var p := s[..CharLen(s)];
    assert forall i :: 0 <= i < |p| ==> t[i] == p[i] == s[i];
  }

  /** Cutting valid text at a character boundary leaves two valid parts. */
  lemma {:induction false} BoundarySplits(s: seq<byte>, i: nat)
    requires Valid(s) && i <= |s| && IsCharBoundary(s, i)
    ensures Valid(s[..i]) && Valid(s[i..])
    decreases |s|
  {
    hide CharLen;
    if i > 0 {
      var n := CharLen(s);
      assert n <= i;
      if i == n { assert n == |s| || !IsTail(s[n]); }
      BoundarySplits(s[n..], i - n);
      CharLenLocal(s, s[..i]);
      assert s[..i][n..] == s[n..][..i - n];
      assert s[n..][i - n..] == s[i..];
    } else {
      assert s[0..] == s;
    }
  }

  /** A valid prefix of valid text always ends at a character boundary. */
  lemma {:induction false} ValidPrefixEndsAtBoundary(s: seq<byte>, i: nat)
    requires Valid(s) && i <= |s| && Valid(s[..i])
    ensures IsCharBoundary(s, i)
    decreases |s|
  {
    hide CharLen;
    if 0 < i < |s| {
      var p := s[..i];
      var n := CharLen(p);
      CharLenLocal(p, s);
      assert p[n..] == s[n..][..i - n];
      ValidPrefixEndsAtBoundary(s[n..], i - n);
      if i == n { StartsClean(s[n..]); }
    }
  }

  lemma StartsClean(s: seq<byte>)
    requires Valid(s)
    ensures s != [] ==> !IsTail(s[0])
  {
  }

  lemma {:induction false} ValidConcat(a: seq<byte>, b: seq<byte>)
    requires Valid(a) && Valid(b)
    ensures Valid(a + b)
  {
    hide CharLen;
    if a == [] {
      assert a + b == b;
    } else {
      var n := CharLen(a);
      ValidConcat(a[n..], b);
      assert (a + b)[n..] == a[n..] + b;
      CharLenLocal(a, a + b);
    }
  }

  /** Among any four consecutive cut points of valid text one is a character boundary. */
  lemma {:induction false} BoundaryNearby(s: seq<byte>, i: nat) returns (j: nat)
    requires Valid(s) && i <= |s|
    ensures j <= i < j + 4 && IsCharBoundary(s, j)
    decreases |s|
  {
    if i == |s| || i == 0 { return i; }
    var n := CharLen(s);
    if i < n { return 0; }
    j := BoundaryNearby(s[n..], i - n);
    if j == 0 { StartsClean(s[n..]); }
    j := j + n;
  }

  function EncodeText(cps: seq<int>): seq<byte>
    requires forall i :: 0 <= i < |cps| ==> IsScalar(cps[i])
  {
    if cps == [] then [] else EncodeChar(cps[0]) + EncodeText(cps[1..])
  }

  ghost predicate Encodes(s: seq<byte>, cps: seq<int>) {
    (forall i :: 0 <= i < |cps| ==> IsScalar(cps[i])) && EncodeText(cps) == s
  }

  /** Well-formed text is exactly the encoding of some sequence of scalar values. */
  lemma ValidIffEncoded(s: seq<byte>)
    ensures Valid(s) <==> exists cps :: Encodes(s, cps)
  {
    if Valid(s) {
      var cps := Decoded(s);
      assert Encodes(s, cps);
    }
    forall cps | Encodes(s, cps) ensures Valid(s) { EncodedIsValid(cps); }
  }

  lemma {:induction false} Decoded(s: seq<byte>) returns (cps: seq<int>)
    requires Valid(s)
    ensures Encodes(s, cps)
    decreases |s|
  {
    hide CharLen, EncodeChar, DecodeChar, IsScalar;
    if s == [] {
      cps := [];
    } else {
      var n := CharLen(s);
      AcceptedIsEncoded(s);
      var rest := Decoded(s[n..]);
      cps := [DecodeChar(s)] + rest;
      assert cps[1..] == rest && s == s[..n] + s[n..];
    }
  }

  lemma {:induction false} EncodedIsValid(cps: seq<int>)
    requires forall i :: 0 <= i < |cps| ==> IsScalar(cps[i])
    ensures Valid(EncodeText(cps))
  {
    hide CharLen, EncodeChar, DecodeChar, IsScalar;
    if cps != [] {
      var e, rest := EncodeChar(cps[0]), EncodeText(cps[1..]);
      EncodedIsAccepted(cps[0], rest);
      EncodedIsValid(cps[1..]);
      EncodingNotEmpty(cps[0]);
      assert (e + rest)[|e|..] == rest;
    }
  }

  lemma EncodingNotEmpty(cp: int)
    requires IsScalar(cp)
    ensures EncodeChar(cp) != []
  {
  }
}
