/** Character-level helpers shared by the Python and TypeScript modules: decimal rendering
    and parsing of integers, splitting on a separator, trimming and ASCII lower-casing. */
module Strings {

  predicate IsDigit(c: char) {
    '0' <= c <= '9'
  }

  /** Python's `str.isdigit()` on ASCII text: non-empty and made only of digits. */
  predicate AllDigits(s: string) {
    |s| > 0 && forall i :: 0 <= i < |s| ==> IsDigit(s[i])
  }

  function DigitValue(c: char): (d: nat)
    requires IsDigit(c)
    ensures d < 10
  {
    (c as int) - ('0' as int)
  }

  function DigitChar(d: nat): (c: char)
    requires d < 10
    ensures IsDigit(c) && DigitValue(c) == d
  {
    (('0' as int) + d) as char
  }

  /** The value of a string of decimal digits, as Python's `int(...)` reads it (leading
      zeros allowed). */
  function DigitsValue(s: string): nat
    requires forall i :: 0 <= i < |s| ==> IsDigit(s[i])
  {
    if s == [] then 0 else DigitsValue(s[..|s| - 1]) * 10 + DigitValue(s[|s| - 1])
  }

  /** Decimal rendering of a natural number, as `str(n)` in Python and `n.toString()` in
      JavaScript: no leading zeros, and reading it back gives n. */
  function NatToString(n: nat): (s: string)
    ensures AllDigits(s)
    ensures DigitsValue(s) == n
    ensures s[0] == '0' ==> n == 0
    decreases n
  {
    if n < 10 then [DigitChar(n)]
    else
      var prefix := NatToString(n / 10);
      var s := prefix + [DigitChar(n % 10)];
      assert s[..|s| - 1] == prefix;
      s
  }

  /** Decimal rendering of an integer: a minus sign before the digits of a negative one. */
  function IntToString(i: int): (s: string)
    ensures |s| > 0
    ensures i >= 0 ==> AllDigits(s) && DigitsValue(s) == i
    ensures i < 0 ==> s[0] == '-' && AllDigits(s[1..]) && DigitsValue(s[1..]) == -i
  {
    if i < 0 then "-" + NatToString(-i) else NatToString(i)
  }

  /** Distinct integers have distinct renderings, so file names and URLs built from an
      id identify the id. */
  lemma IntToStringInjective(a: int, b: int)
    requires IntToString(a) == IntToString(b)
    ensures a == b
  {
  }

  /** Python's `s.split(c)` for a one-character separator: the pieces between separators,
      empty pieces included; an empty string gives one empty piece. */
  function Split(s: string, c: char): (parts: seq<string>)
    ensures |parts| >= 1
    ensures forall k :: 0 <= k < |parts| ==> c !in parts[k]
    ensures Join(parts, c) == s
  {
    if s == [] then [""]
    else
      var rest := Split(s[1..], c);
      if s[0] == c then
        [""] + rest
      else
        JoinPrepend(s[0], rest, c);
        [[s[0]] + rest[0]] + rest[1..]
  }

  /** The inverse of Split: the pieces with the separator between each two. */
  function Join(parts: seq<string>, c: char): string
    requires |parts| >= 1
  {
    if |parts| == 1 then parts[0] else parts[0] + [c] + Join(parts[1..], c)
  }

  lemma JoinPrepend(ch: char, parts: seq<string>, c: char)
    requires |parts| >= 1
    ensures Join([[ch] + parts[0]] + parts[1..], c) == [ch] + Join(parts, c)
  {
    var q := [[ch] + parts[0]] + parts[1..];
    assert q[1..] == parts[1..];
  }

  /** Position of the first occurrence of c in s. */
  function FirstIndex(s: string, c: char): (i: nat)
    requires c in s
    ensures i < |s| && s[i] == c && c !in s[..i]
  {
    if s[0] == c then 0
    else
      assert c in s[1..] by {
        var k :| 0 <= k < |s| && s[k] == c;
        assert s[1..][k - 1] == c;
      }
      var i := 1 + FirstIndex(s[1..], c);
      assert s[..i] == [s[0]] + s[1..][..i - 1];
      i
  }

  /** `s.strip()` / `s.trim()` for a given whitespace alphabet: drop leading and trailing
      characters of ws. */
  function Trim(s: string, ws: set<char>): (r: string)
    ensures |r| <= |s|
    ensures r != [] ==> r[0] !in ws && r[|r| - 1] !in ws
    ensures (forall k :: 0 <= k < |s| ==> s[k] in ws) ==> r == []
    ensures s != [] && s[0] !in ws && s[|s| - 1] !in ws ==> r == s
  {
    var t := TrimStart(s, ws);
    TrimStartSuffix(s, ws);
    TrimEndPrefix(t, ws);
    assert t != [] ==> t[0] == s[|s| - |t| + 0];
    TrimEnd(t, ws)
  }

  function TrimStart(s: string, ws: set<char>): (r: string)
    ensures |r| <= |s|
    ensures r != [] ==> r[0] !in ws
    ensures forall k :: 0 <= k < |s| - |r| ==> s[k] in ws
  {
    if s != [] && s[0] in ws then TrimStart(s[1..], ws) else s
  }

  function TrimEnd(s: string, ws: set<char>): (r: string)
    ensures |r| <= |s|
    ensures r != [] ==> r[|r| - 1] !in ws
    ensures forall k :: |r| <= k < |s| ==> s[k] in ws
  {
    if s != [] && s[|s| - 1] in ws then TrimEnd(s[..|s| - 1], ws) else s
  }

  /** What TrimStart keeps is a suffix of its input. */
  lemma {:induction false} TrimStartSuffix(s: string, ws: set<char>)
    ensures forall k :: 0 <= k < |TrimStart(s, ws)| ==>
      TrimStart(s, ws)[k] == s[|s| - |TrimStart(s, ws)| + k]
  {
    if s != [] && s[0] in ws {
      TrimStartSuffix(s[1..], ws);
      var r := TrimStart(s[1..], ws);
      assert TrimStart(s, ws) == r;
      forall k | 0 <= k < |r| ensures r[k] == s[|s| - |r| + k] {
        var i := |s[1..]| - |r| + k;
        assert r[k] == s[1..][i];
        assert s[1..][i] == s[i + 1];
      }
    }
  }

  /** What TrimEnd keeps is a prefix of its input. */
  lemma {:induction false} TrimEndPrefix(s: string, ws: set<char>)
    ensures forall k :: 0 <= k < |TrimEnd(s, ws)| ==> TrimEnd(s, ws)[k] == s[k]
  {
    if s != [] && s[|s| - 1] in ws {
      TrimEndPrefix(s[..|s| - 1], ws);
    }
  }

  /** The ASCII characters Python's `str.strip()` removes (those `isspace()` accepts). */
  const PY_WHITESPACE: set<char> :=
    {' ', '\t', '\n', '\r', '\U{0b}', '\U{0c}', '\U{1c}', '\U{1d}', '\U{1e}', '\U{1f}'}

  /** The ASCII characters JavaScript's `trim()` removes and the regular expression class
      `\s` matches. */
  const JS_WHITESPACE: set<char> := {' ', '\t', '\n', '\r', '\U{0b}', '\U{0c}'}

  predicate IsUpper(c: char) {
    'A' <= c <= 'Z'
  }

  function LowerChar(c: char): (d: char)
    ensures !IsUpper(d)
    ensures IsUpper(c) ==> d as int == c as int + 32
    ensures !IsUpper(c) ==> d == c
  {
    if IsUpper(c) then (c as int + 32) as char else c
  }

  /** ASCII lower-casing, as `lower()` / `toLowerCase()` act on ASCII text. */
  function Lower(s: string): (r: string)
    ensures |r| == |s|
    ensures forall k :: 0 <= k < |s| ==> r[k] == LowerChar(s[k])
  {
    seq(|s|, k requires 0 <= k < |s| => LowerChar(s[k]))
  }
}
