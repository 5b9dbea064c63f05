/**
 * The parts of Go's `strings` and `path/filepath` packages that the parser
 * relies on, over Go's notion of a string: a sequence of bytes whose length
 * `len` counts bytes.
 *
 * Two different notions of white space appear in the parser and are kept
 * apart here:
 *  - `strings.TrimSpace` trims Unicode white space (`unicode.IsSpace`), which
 *    at the byte level means whole UTF-8 encodings of the runes
 *    \t \n \v \f \r ' ' U+0085 U+00A0 U+1680 U+2000..U+200A U+2028 U+2029
 *    U+202F U+205F U+3000;
 *  - the RE2 class `\s` is ASCII only: \t \n \f \r ' ' (no \v).
 */
module GoStrings {

  /** One byte of a Go string. */
  type Byte = b: int | 0 <= b < 0x100

  /** A Go string. */
  type Bytes = seq<Byte>

  /** The bytes of an ASCII literal. */
  function Ascii(s: string): Bytes
    requires forall i | 0 <= i < |s| :: s[i] as int < 0x80
  {
    seq(|s|, i requires 0 <= i < |s| => s[i] as int)
  }

  const SP: Byte := 0x20
  const NL: Byte := 0x0A
  const SLASH: Byte := 0x2F
  const COMMA: Byte := 0x2C
  const DOT: Byte := 0x2E

  predicate IsDigit(b: Byte) { '0' as int <= b <= '9' as int }

  predicate AllDigits(s: Bytes) { forall i | 0 <= i < |s| :: IsDigit(s[i]) }

  // ---------------------------------------------------------------------
  // White space
  // ---------------------------------------------------------------------

  /** The one-byte runes for which `unicode.IsSpace` holds (Go's `asciiSpace` table). */
  predicate IsAsciiSpace(b: Byte) {
    b == 0x09 || b == 0x0A || b == 0x0B || b == 0x0C || b == 0x0D || b == 0x20
  }

  /** RE2's `\s`: like IsAsciiSpace, but without the vertical tab 0x0B. */
  predicate IsRegexSpace(b: Byte) {
    b == 0x09 || b == 0x0A || b == 0x0C || b == 0x0D || b == 0x20
  }

  /** The UTF-8 encodings of U+0085 and U+00A0. */
  predicate IsSpace2(a: Byte, b: Byte) {
    a == 0xC2 && (b == 0x85 || b == 0xA0)
  }

  /** The UTF-8 encodings of the three-byte white-space runes. */
  predicate IsSpace3(a: Byte, b: Byte, c: Byte) {
    || (a == 0xE1 && b == 0x9A && c == 0x80)                                     // U+1680
    || (a == 0xE2 && b == 0x80 && (0x80 <= c <= 0x8A || c == 0xA8 || c == 0xA9 || c == 0xAF))
                                                     // U+2000..U+200A, U+2028, U+2029, U+202F
    || (a == 0xE2 && b == 0x81 && c == 0x9F)                                     // U+205F
    || (a == 0xE3 && b == 0x80 && c == 0x80)                                     // U+3000
  }

  /** The width in bytes of the white-space rune `s` starts with, or 0 if it starts with none. */
  function LeadingSpaceWidth(s: Bytes): nat {
    if |s| >= 1 && IsAsciiSpace(s[0]) then 1
    else if |s| >= 2 && IsSpace2(s[0], s[1]) then 2
    else if |s| >= 3 && IsSpace3(s[0], s[1], s[2]) then 3
    else 0
  }

  /** The width in bytes of the white-space rune `s` ends with, or 0 if it ends with none. */
  function TrailingSpaceWidth(s: Bytes): nat {
    var n := |s|;
    if n >= 1 && IsAsciiSpace(s[n - 1]) then 1
    else if n >= 2 && IsSpace2(s[n - 2], s[n - 1]) then 2
    else if n >= 3 && IsSpace3(s[n - 3], s[n - 2], s[n - 1]) then 3
    else 0
  }

  /** True when `s` neither starts nor ends with Unicode white space. */
  predicate IsTrimmed(s: Bytes) {
    LeadingSpaceWidth(s) == 0 && TrailingSpaceWidth(s) == 0
  }

  /** `strings.TrimLeftFunc(s, unicode.IsSpace)`: the result does not start with
      white space, and is `s` itself when `s` did not. */
  function TrimLeftSpace(s: Bytes): (r: Bytes)
    ensures |r| <= |s|
    ensures LeadingSpaceWidth(r) == 0
    ensures LeadingSpaceWidth(s) == 0 ==> r == s
    decreases |s|
  {
    var w := LeadingSpaceWidth(s);
    if w == 0 then s else TrimLeftSpace(s[w..])
  }

  /** `strings.TrimRightFunc(s, unicode.IsSpace)`: the result does not end with
      white space, and is `s` itself when `s` did not; it does not start with
      white space when `s` does not. */
  function TrimRightSpace(s: Bytes): (r: Bytes)
    ensures |r| <= |s|
    ensures TrailingSpaceWidth(r) == 0
    ensures LeadingSpaceWidth(s) == 0 ==> LeadingSpaceWidth(r) == 0
    ensures TrailingSpaceWidth(s) == 0 ==> r == s
    decreases |s|
  {
    var w := TrailingSpaceWidth(s);
    if w == 0 then s else TrimRightSpace(s[..|s| - w])
  }

  /** `strings.TrimSpace`: the result neither starts nor ends with white space,
      and is `s` itself when `s` had nothing to trim. */
  function TrimSpace(s: Bytes): (r: Bytes)
    ensures IsTrimmed(r)
    ensures |r| <= |s|
    ensures IsTrimmed(s) ==> r == s
  {
    TrimRightSpace(TrimLeftSpace(s))
  }

  /** What TrimLeftSpace keeps is a suffix of `s`. */
  lemma {:induction false} TrimLeftSpaceIsSuffix(s: Bytes)
    ensures TrimLeftSpace(s) == s[|s| - |TrimLeftSpace(s)|..]
    decreases |s|
  {
    var w := LeadingSpaceWidth(s);
    if w != 0 {
      TrimLeftSpaceIsSuffix(s[w..]);
      assert s[w..][|s[w..]| - |TrimLeftSpace(s)|..] == s[|s| - |TrimLeftSpace(s)|..];
    }
  }

  /** What TrimRightSpace keeps is a prefix of `s`. */
  lemma {:induction false} TrimRightSpaceIsPrefix(s: Bytes)
    ensures TrimRightSpace(s) == s[..|TrimRightSpace(s)|]
    decreases |s|
  {
    var w := TrailingSpaceWidth(s);
    if w != 0 {
      TrimRightSpaceIsPrefix(s[..|s| - w]);
      assert s[..|s| - w][..|TrimRightSpace(s)|] == s[..|TrimRightSpace(s)|];
    }
  }

  /** What TrimSpace keeps is a contiguous part of `s`: what is left of the
      suffix without leading white space, cut before its trailing white space. */
  lemma TrimSpaceIsSlice(s: Bytes)
    ensures |TrimSpace(s)| <= |TrimLeftSpace(s)| <= |s|
    ensures TrimSpace(s) == s[|s| - |TrimLeftSpace(s)|..][..|TrimSpace(s)|]
  {
    TrimLeftSpaceIsSuffix(s);
    TrimRightSpaceIsPrefix(TrimLeftSpace(s));
  }

  /** `s` consists of whole white-space runes, read from the front. */
  predicate IsLeadingSpaceRun(s: Bytes)
    decreases |s|
  {
    s == [] || (LeadingSpaceWidth(s) > 0 && IsLeadingSpaceRun(s[LeadingSpaceWidth(s)..]))
  }

  /** `s` consists of whole white-space runes, read from the back. */
  predicate IsTrailingSpaceRun(s: Bytes)
    decreases |s|
  {
    s == [] || (TrailingSpaceWidth(s) > 0 && IsTrailingSpaceRun(s[..|s| - TrailingSpaceWidth(s)]))
  }

  /** The white-space rune at the front of `s` is found in any prefix holding it. */
  lemma LeadingWidthOfPrefix(s: Bytes, k: nat)
    requires 0 < LeadingSpaceWidth(s) <= k <= |s|
    ensures LeadingSpaceWidth(s[..k]) == LeadingSpaceWidth(s)
  {
    var p := s[..k];
    assert p[0] == s[0];
    assert k >= 2 ==> p[1] == s[1];
    assert k >= 3 ==> p[2] == s[2];
  }

  /** The white-space rune at the back of `s` is found in any suffix holding it. */
  lemma TrailingWidthOfSuffix(s: Bytes, k: nat)
    requires k <= |s| && 0 < TrailingSpaceWidth(s) <= |s| - k
    ensures TrailingSpaceWidth(s[k..]) == TrailingSpaceWidth(s)
  {
    var q := s[k..];
    var n := |s|;
    var m := |q|;
    assert q[m - 1] == s[n - 1];
    assert m >= 2 ==> q[m - 2] == s[n - 2];
    assert m >= 3 ==> q[m - 3] == s[n - 3];
  }

  /** What TrimLeftSpace removes is a run of whole white-space runes. */
  lemma {:induction false} TrimLeftSpaceRemovesSpace(s: Bytes)
    ensures IsLeadingSpaceRun(s[..|s| - |TrimLeftSpace(s)|])
    decreases |s|
  {
    var w := LeadingSpaceWidth(s);
    var k := |s| - |TrimLeftSpace(s)|;
    if w > 0 {
      var rest := s[w..];
      TrimLeftSpaceRemovesSpace(rest);
      assert TrimLeftSpace(s) == TrimLeftSpace(rest);
      LeadingWidthOfPrefix(s, k);
      assert s[..k][w..] == rest[..|rest| - |TrimLeftSpace(rest)|];
    } else {
      assert s[..k] == [];
    }
  }

  /** A white-space rune at the back of `s`, after a run of white-space runes,
      extends the run. */
  lemma TrailingRunStep(s: Bytes, k: nat)
    requires 0 < TrailingSpaceWidth(s) && k <= |s| - TrailingSpaceWidth(s)
    requires IsTrailingSpaceRun(s[..|s| - TrailingSpaceWidth(s)][k..])
    ensures IsTrailingSpaceRun(s[k..])
  {
    var w := TrailingSpaceWidth(s);
    TrailingWidthOfSuffix(s, k);
    var q := s[k..];
    assert q[..|q| - w] == s[..|s| - w][k..];
  }

  /** What TrimRightSpace removes is a run of whole white-space runes. */
  lemma {:induction false} TrimRightSpaceRemovesSpace(s: Bytes)
    ensures IsTrailingSpaceRun(s[|TrimRightSpace(s)|..])
    decreases |s|
  {
    var w := TrailingSpaceWidth(s);
    var k := |TrimRightSpace(s)|;
    if w > 0 {
      var rest := s[..|s| - w];
      assert TrimRightSpace(s) == TrimRightSpace(rest);
      TrimRightSpaceRemovesSpace(rest);
      TrailingRunStep(s, k);
    } else {
      assert s[k..] == [];
    }
  }

  /** Where TrimSpace's result starts in `s`. */
  function TrimStart(s: Bytes): nat {
    |s| - |TrimLeftSpace(s)|
  }

  /** Where TrimSpace's result ends in `s`. */
  function TrimEnd(s: Bytes): nat {
    TrimStart(s) + |TrimSpace(s)|
  }

  /** TrimSpace keeps the part of `s` between TrimStart and TrimEnd. */
  lemma TrimSpaceBounds(s: Bytes)
    ensures TrimStart(s) <= TrimEnd(s) <= |s|
    ensures TrimSpace(s) == s[TrimStart(s)..TrimEnd(s)]
  {
    var t := TrimLeftSpace(s);
    TrimLeftSpaceIsSuffix(s);
    TrimRightSpaceIsPrefix(t);
  }

  /** TrimSpace cuts `s` into three: a leading run of white-space runes, the
      result, and a trailing run of white-space runes. */
  lemma TrimSpaceRemovesSpace(s: Bytes)
    ensures TrimStart(s) <= TrimEnd(s) <= |s|
    ensures IsLeadingSpaceRun(s[..TrimStart(s)])
    ensures IsTrailingSpaceRun(s[TrimEnd(s)..])
  {
    var t := TrimLeftSpace(s);
    TrimSpaceBounds(s);
    TrimLeftSpaceIsSuffix(s);
    TrimLeftSpaceRemovesSpace(s);
    TrimRightSpaceRemovesSpace(t);
    assert t[|TrimSpace(s)|..] == s[TrimEnd(s)..];
  }

  /** A byte that is ASCII and not white space is neither trimmed nor part of a
      multi-byte white-space rune, so it hides everything before it from the
      trailing-space check. */
  lemma TrailingWidthAfterAscii(x: Bytes, y: Bytes)
    requires x != [] && x[|x| - 1] < 0x80 && !IsAsciiSpace(x[|x| - 1])
    ensures TrailingSpaceWidth(x + y) == TrailingSpaceWidth(y)
    ensures TrailingSpaceWidth(x + y) <= |y|
  {
    var s := x + y;
    var n := |s|;
    assert s[|x| - 1] == x[|x| - 1];
    assert forall i | 0 <= i < |y| :: s[|x| + i] == y[i];
  }

  /** Right trimming distributes over a concatenation whose left part ends in a
      byte that is ASCII and not white space. */
  lemma {:induction false} TrimRightSpaceAppend(x: Bytes, y: Bytes)
    requires x != [] && x[|x| - 1] < 0x80 && !IsAsciiSpace(x[|x| - 1])
    ensures TrimRightSpace(x + y) == x + TrimRightSpace(y)
    decreases |y|
  {
    TrailingWidthAfterAscii(x, y);
    var w := TrailingSpaceWidth(y);
    if w == 0 {
      assert TrimRightSpace(y) == y;
      assert TrimRightSpace(x + y) == x + y;
    } else {
      var y' := y[..|y| - w];
      assert (x + y)[..|x + y| - w] == x + y';
      assert TrimRightSpace(x + y) == TrimRightSpace(x + y');
      assert TrimRightSpace(y) == TrimRightSpace(y');
      TrimRightSpaceAppend(x, y');
    }
  }

  // ---------------------------------------------------------------------
  // Prefixes, suffixes, case, replacement
  // ---------------------------------------------------------------------

  /** `strings.HasPrefix`. */
  predicate HasPrefix(s: Bytes, p: Bytes) {
    |p| <= |s| && s[..|p|] == p
  }

  /** `strings.HasSuffix`. */
  predicate HasSuffix(s: Bytes, p: Bytes) {
    |p| <= |s| && s[|s| - |p|..] == p
  }

  /** `strings.TrimPrefix`: removes `p` once if `s` starts with it. */
  function TrimPrefix(s: Bytes, p: Bytes): (r: Bytes)
    ensures HasPrefix(s, p) ==> p + r == s
    ensures !HasPrefix(s, p) ==> r == s
  {
    if HasPrefix(s, p) then s[|p|..] else s
  }

  /** `strings.TrimSuffix`: removes `p` once if `s` ends with it. */
  function TrimSuffix(s: Bytes, p: Bytes): (r: Bytes)
    ensures HasSuffix(s, p) ==> r + p == s
    ensures !HasSuffix(s, p) ==> r == s
  {
    if HasSuffix(s, p) then s[..|s| - |p|] else s
  }

  function LowerByte(b: Byte): Byte {
    if 'A' as int <= b <= 'Z' as int then b + 32 else b
  }

  function UpperByte(b: Byte): Byte {
    if 'a' as int <= b <= 'z' as int then b - 32 else b
  }

  /** `strings.ToLower` on the ASCII letters; other bytes are left as they are. */
  function ToLower(s: Bytes): (r: Bytes)
    ensures |r| == |s|
    ensures forall i | 0 <= i < |s| :: r[i] == LowerByte(s[i])
  {
    seq(|s|, i requires 0 <= i < |s| => LowerByte(s[i]))
  }

  /** `strings.ToUpper` on the ASCII letters; other bytes are left as they are. */
  function ToUpper(s: Bytes): (r: Bytes)
    ensures |r| == |s|
    ensures forall i | 0 <= i < |s| :: r[i] == UpperByte(s[i])
  {
    seq(|s|, i requires 0 <= i < |s| => UpperByte(s[i]))
  }

  /** True when `s` and `t` differ at most in the case of ASCII letters. */
  predicate EqualFold(s: Bytes, t: Bytes) {
    |s| == |t| && forall i | 0 <= i < |s| :: LowerByte(s[i]) == LowerByte(t[i])
  }

  /** The number of occurrences of byte `b` in `s`. */
  function Count(s: Bytes, b: Byte): nat {
    if s == [] then 0 else (if s[0] == b then 1 else 0) + Count(s[1..], b)
  }

  /** `strings.ReplaceAll(s, string(b), "")`: every occurrence of `b` removed,
      every other byte kept in order. */
  function RemoveAll(s: Bytes, b: Byte): (r: Bytes)
    ensures forall i | 0 <= i < |r| :: r[i] != b
    ensures forall i | 0 <= i < |r| :: r[i] in s
    ensures Count(r, b) == 0
    ensures forall c: Byte | c != b :: Count(r, c) == Count(s, c)
  {
    if s == [] then []
    else if s[0] == b then RemoveAll(s[1..], b)
    else [s[0]] + RemoveAll(s[1..], b)
  }

  /** Removal works byte by byte: it distributes over concatenation, so the
      kept bytes stay in their order. */
  lemma {:induction false} RemoveAllAppend(x: Bytes, y: Bytes, b: Byte)
    ensures RemoveAll(x + y, b) == RemoveAll(x, b) + RemoveAll(y, b)
    decreases |x|
  {
    if x == [] {
      assert x + y == y;
    } else {
      assert (x + y)[0] == x[0];
      assert (x + y)[1..] == x[1..] + y;
      RemoveAllAppend(x[1..], y, b);
    }
  }

  /** A string without `b` is left unchanged. */
  lemma {:induction false} RemoveAllAbsent(s: Bytes, b: Byte)
    requires b !in s
    ensures RemoveAll(s, b) == s
    decreases |s|
  {
    if s != [] {
      assert b !in s[1..];
      RemoveAllAbsent(s[1..], b);
    }
  }

  // ---------------------------------------------------------------------
  // filepath.Base (Unix: the separator is '/', there is no volume name)
  // ---------------------------------------------------------------------

  /** `path` without its trailing slashes. */
  function StripTrailingSlashes(path: Bytes): (r: Bytes)
    ensures |r| <= |path| && r == path[..|r|]
    ensures r == [] || r[|r| - 1] != SLASH
    ensures forall i | |r| <= i < |path| :: path[i] == SLASH
    ensures path != [] && path[|path| - 1] != SLASH ==> r == path
  {
    if path != [] && path[|path| - 1] == SLASH then StripTrailingSlashes(path[..|path| - 1]) else path
  }

  /** What follows the last '/' of `path` (all of it when there is none). */
  function AfterLastSlash(path: Bytes): (r: Bytes)
    ensures |r| <= |path| && r == path[|path| - |r|..]
    ensures SLASH !in r
    ensures |r| < |path| ==> path[|path| - |r| - 1] == SLASH
  {
    if path == [] || path[|path| - 1] == SLASH then []
    else AfterLastSlash(path[..|path| - 1]) + [path[|path| - 1]]
  }

  /** `filepath.Base`: "." for the empty path, "/" for a path of slashes only,
      otherwise the last element once trailing slashes are removed. */
  function Base(path: Bytes): Bytes {
    if path == [] then Ascii(".")
    else
      var p := StripTrailingSlashes(path);
      if p == [] then Ascii("/") else AfterLastSlash(p)
  }
}
