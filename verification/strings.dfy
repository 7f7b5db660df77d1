/**
 * The string operations the Python code relies on: `str.isspace`,
 * `str.strip()`, `str.lower()` and `str.endswith`.
 */
module Strings {

  /** Python's `str.isspace` for one character: the Unicode characters with
      bidirectional class WS, B or S, or general category Zs. */
  predicate IsSpace(c: char)
  {
    var n := c as int;
    || (0x09 <= n <= 0x0D) || (0x1C <= n <= 0x20)
    || n == 0x85 || n == 0xA0 || n == 0x1680
    || (0x2000 <= n <= 0x200A)
    || n == 0x2028 || n == 0x2029 || n == 0x202F || n == 0x205F || n == 0x3000
  }

  /** Every character of `s` is whitespace (vacuously true of ""). */
  predicate IsBlank(s: string)
  {
    forall i :: 0 <= i < |s| ==> IsSpace(s[i])
  }

  /** `s` without its leading whitespace (`str.lstrip()`). */
  function TrimStart(s: string): (r: string)
    ensures |r| <= |s| && r == s[|s| - |r|..]
    ensures r == [] || !IsSpace(r[0])
    ensures IsBlank(s[..|s| - |r|])
  {
    if |s| > 0 && IsSpace(s[0]) then
      var r := TrimStart(s[1..]);
      assert s[1..][..|s[1..]| - |r|] == s[1..|s| - |r|];
      r
    else s
  }

  /** `s` without its trailing whitespace (`str.rstrip()`). */
  function TrimEnd(s: string): (r: string)
    ensures |r| <= |s| && r == s[..|r|]
    ensures r == [] || !IsSpace(r[|r| - 1])
    ensures IsBlank(s[|r|..])
  {
    if |s| > 0 && IsSpace(s[|s| - 1]) then
      var r := TrimEnd(s[..|s| - 1]);
      assert s[..|s| - 1][|r|..] + [s[|s| - 1]] == s[|r|..];
      r
    else s
  }

  /** `r` is the part of `s` from `lo` on, and what `s` has around it is
      whitespace. */
  predicate StrippedAt(s: string, r: string, lo: int)
  {
    && 0 <= lo <= |s| - |r| && r == s[lo..lo + |r|]
    && IsBlank(s[..lo]) && IsBlank(s[lo + |r|..])
  }

  /** Python's `str.strip()`: `s` without leading and trailing whitespace. */
  function Strip(s: string): (r: string)
    ensures 0 <= |s| - |r|
    ensures exists lo :: StrippedAt(s, r, lo)
    ensures r == [] <==> IsBlank(s)
    ensures r != [] ==> !IsSpace(r[0]) && !IsSpace(r[|r| - 1])
  {
    var t := TrimStart(s);
    var r := TrimEnd(t);
    StripSlices(s, t, r, |s| - |t|);
    StripBlank(s);
    r
  }

  /** The two trims cut a blank prefix and a blank suffix off `s`: `t` is
      `s` from `lo` on, and `r` is `t` up to its trailing whitespace. */
  lemma StripSlices(s: string, t: string, r: string, lo: nat)
    requires t == TrimStart(s) && r == TrimEnd(t) && lo == |s| - |t|
    ensures lo + |r| <= |s|
    ensures r == s[lo..lo + |r|]
    ensures IsBlank(s[..lo]) && IsBlank(s[lo + |r|..])
    ensures StrippedAt(s, r, lo)
  {
    assert t == s[lo..];
    assert r == t[..|r|];
    assert s[lo + |r|..] == t[|r|..];
  }

  /** The two trims leave nothing exactly when `s` is blank. */
  lemma StripBlank(s: string)
    ensures TrimEnd(TrimStart(s)) == [] <==> IsBlank(s)
  {
    var t := TrimStart(s);
    var r := TrimEnd(t);
    var lo := |s| - |t|;
    if r != [] {
      StripSlices(s, t, r, lo);
      assert r[0] == s[lo];
    } else {
      assert t[|r|..] == t;
      assert t == [];
      assert s[..lo] == s;
    }
  }

  /** A string with no whitespace at either end is its own strip. */
  lemma {:induction false} StripOfTrimmed(s: string)
    requires s == [] || (!IsSpace(s[0]) && !IsSpace(s[|s| - 1]))
    ensures Strip(s) == s
  {
    assert TrimStart(s) == s;
    assert TrimEnd(s) == s;
  }

  /** Stripping twice is stripping once. */
  lemma StripIdempotent(s: string)
    ensures Strip(Strip(s)) == Strip(s)
  {
    StripOfTrimmed(Strip(s));
  }

  /** `str.lower()` on one character; only the ASCII letters are mapped. */
  function LowerChar(c: char): char
  {
    if 'A' <= c <= 'Z' then (c as int + 32) as char else c
  }

  /** `str.lower()`, character by character on the ASCII letters. */
  function Lower(s: string): (r: string)
    ensures |r| == |s|
    ensures forall i :: 0 <= i < |s| ==> r[i] == LowerChar(s[i])
  {
    seq(|s|, i requires 0 <= i < |s| => LowerChar(s[i]))
  }

  /** Lower-casing never touches whitespace, so it commutes with `str.lstrip()`. */
  lemma {:induction false} TrimStartLower(s: string)
    ensures TrimStart(Lower(s)) == Lower(TrimStart(s))
    decreases |s|
  {
    if |s| > 0 && IsSpace(s[0]) {
      assert Lower(s)[1..] == Lower(s[1..]);
      TrimStartLower(s[1..]);
    }
  }

  /** Lower-casing never touches whitespace, so it commutes with `str.rstrip()`. */
  lemma {:induction false} TrimEndLower(s: string)
    ensures TrimEnd(Lower(s)) == Lower(TrimEnd(s))
    decreases |s|
  {
    if |s| > 0 && IsSpace(s[|s| - 1]) {
      assert Lower(s)[..|s| - 1] == Lower(s[..|s| - 1]);
      TrimEndLower(s[..|s| - 1]);
    }
  }

  /** Stripping and lower-casing may be done in either order. */
  lemma StripLowerCommute(s: string)
    ensures Strip(Lower(s)) == Lower(Strip(s))
  {
    TrimStartLower(s);
    TrimEndLower(TrimStart(s));
  }

  /** Lower-casing twice is lower-casing once. */
  lemma LowerIdempotent(s: string)
    ensures Lower(Lower(s)) == Lower(s)
  {
  }

  /** Python's `str.endswith(suffix)`. */
  predicate EndsWith(s: string, suffix: string)
  {
    |suffix| <= |s| && s[|s| - |suffix|..] == suffix
  }
}
