/** The few operations on Python `str` values that the core relies on:
    `find`, `strip`, slicing with non-negative bounds, `str(n)` for a natural
    number and `split(sep)[-1]`. */
module PyStr {

  /** `t` occurs in `s` starting at index `i`. */
  predicate OccursAt(s: string, t: string, i: nat)
  {
    i + |t| <= |s| && s[i..i + |t|] == t
  }

  /** `t` occurs somewhere in `s`. */
  predicate Contains(s: string, t: string)
  {
    exists i: nat :: i <= |s| && OccursAt(s, t, i)
  }

  /** `s.find(t)`: the lowest index at which `t` occurs in `s`, or -1. */
  function Find(s: string, t: string): (r: int)
    ensures -1 <= r <= |s|
    ensures r == -1 <==> !Contains(s, t)
    ensures r >= 0 ==> OccursAt(s, t, r)
    ensures r >= 0 ==> forall i: nat :: i < r ==> !OccursAt(s, t, i)
  {
    FindFrom(s, t, 0)
  }

  /** The lowest index at or after `from` at which `t` occurs in `s`, or -1. */
  function FindFrom(s: string, t: string, from: nat): (r: int)
    requires from <= |s|
    decreases |s| - from
    ensures r == -1 || (from <= r <= |s| && OccursAt(s, t, r))
    ensures r >= 0 ==> forall i: nat :: from <= i < r ==> !OccursAt(s, t, i)
    ensures r == -1 ==> forall i: nat :: from <= i ==> !OccursAt(s, t, i)
  {
    if from + |t| > |s| then -1
    else if OccursAt(s, t, from) then from
    else FindFrom(s, t, from + 1)
  }

  /** A text that lacks the first character of `t` does not contain `t`. */
  lemma AbsentHead(s: string, t: string)
    requires t != [] && t[0] !in s
    ensures !Contains(s, t)
  {
    forall i: nat | i <= |s|
      ensures !OccursAt(s, t, i)
    {
      if i + |t| <= |s| {
        assert s[i..i + |t|][0] == s[i];
      }
    }
  }

  /** When the first character of `t` does not recur inside `t`, no occurrence of
      `t` can overlap another one; so if `a` does not contain `t`, the first `t`
      in `a + t + b` is the one right after `a`. */
  lemma FindAfter(a: string, t: string, b: string)
    requires t != [] && !Contains(a, t)
    requires forall m :: 0 < m < |t| ==> t[m] != t[0]
    ensures Find(a + t + b, t) == |a|
  {
    var o := a + t + b;
    assert o[|a|..|a| + |t|] == t;
    assert OccursAt(o, t, |a|);
    forall k: nat | k < |a|
      ensures !OccursAt(o, t, k)
    {
      if k + |t| <= |a| {
        assert a[k..k + |t|] == o[k..k + |t|];
        assert !OccursAt(a, t, k);
      } else if k + |t| <= |o| {
        var m := |a| - k;
        assert o[k..k + |t|][m] == o[|a|] == t[0] != t[m];
      }
    }
  }

  /** `c.isspace()`: the characters Python's `str.strip()` removes by default. */
  predicate IsSpace(c: char)
  {
    var n := c as int;
    (9 <= n <= 13) || (28 <= n <= 32) || n == 0x85 || n == 0xA0 || n == 0x1680 ||
    (0x2000 <= n <= 0x200A) || n == 0x2028 || n == 0x2029 || n == 0x202F ||
    n == 0x205F || n == 0x3000
  }

  /** The length of the run of whitespace that starts `s`. */
  function LeadingSpaces(s: string): (n: nat)
    ensures n <= |s|
    ensures forall i :: 0 <= i < n ==> IsSpace(s[i])
    ensures n < |s| ==> !IsSpace(s[n])
  {
    if s == [] || !IsSpace(s[0]) then 0 else 1 + LeadingSpaces(s[1..])
  }

  /** The length of the run of whitespace that ends `s`. */
  function TrailingSpaces(s: string): (n: nat)
    ensures n <= |s|
    ensures forall i :: |s| - n <= i < |s| ==> IsSpace(s[i])
    ensures n < |s| ==> !IsSpace(s[|s| - 1 - n])
  {
    if s == [] || !IsSpace(s[|s| - 1]) then 0 else 1 + TrailingSpaces(s[..|s| - 1])
  }

  /** `s.strip()`: `s` without its leading and trailing whitespace. The result is
      the contiguous part of `s` that starts after the leading run; everything of
      `s` outside it is whitespace, and it neither starts nor ends with whitespace. */
  function Strip(s: string): (r: string)
    ensures LeadingSpaces(s) + |r| <= |s|
    ensures r == s[LeadingSpaces(s)..LeadingSpaces(s) + |r|]
    ensures forall i :: LeadingSpaces(s) + |r| <= i < |s| ==> IsSpace(s[i])
    ensures r == [] || (!IsSpace(r[0]) && !IsSpace(r[|r| - 1]))
  {
    var t := s[LeadingSpaces(s)..];
    t[..|t| - TrailingSpaces(t)]
  }

  /** A string that neither starts nor ends with whitespace is its own strip. */
  lemma StripUnspaced(s: string)
    requires s == [] || (!IsSpace(s[0]) && !IsSpace(s[|s| - 1]))
    ensures Strip(s) == s
  {
    if s != [] {
      assert LeadingSpaces(s) == 0 && s[0..] == s;
      assert TrailingSpaces(s) == 0;
    }
  }

  /** A string made only of whitespace strips to the empty string. */
  lemma StripAllSpace(s: string)
    requires forall i :: 0 <= i < |s| ==> IsSpace(s[i])
    ensures Strip(s) == []
  {
    assert LeadingSpaces(s) == |s|;
  }

  function Min(a: int, b: int): int { if a <= b then a else b }

  /** `s[a:b]` for non-negative `a` and `b`: both bounds are clamped to `len(s)`
      and the slice is empty when they cross. */
  function Slice(s: string, a: nat, b: nat): (r: string)
    ensures |r| == if a < Min(b, |s|) then Min(b, |s|) - a else 0
    ensures forall i :: 0 <= i < |r| ==> r[i] == s[a + i]
  {
    if a < Min(b, |s|) then s[a..Min(b, |s|)] else []
  }

  predicate IsDigit(c: char) { '0' <= c <= '9' }

  function DigitChar(d: nat): (c: char)
    requires d < 10
    ensures IsDigit(c) && c as int - '0' as int == d
  {
    ['0', '1', '2', '3', '4', '5', '6', '7', '8', '9'][d]
  }

  function DigitValue(c: char): nat
    requires IsDigit(c)
  {
    c as int - '0' as int
  }

  /** `str(n)` for a natural number: its decimal digits, most significant first. */
  function Decimal(n: nat): (r: string)
    ensures r != []
    ensures forall i :: 0 <= i < |r| ==> IsDigit(r[i])
    ensures r[0] == '0' ==> n == 0 && r == "0"
  {
    if n < 10 then [DigitChar(n)] else Decimal(n / 10) + [DigitChar(n % 10)]
  }

  /** The number a string of decimal digits denotes. */
  function DigitsValue(s: string): nat
    requires forall i :: 0 <= i < |s| ==> IsDigit(s[i])
  {
    if s == [] then 0 else 10 * DigitsValue(s[..|s| - 1]) + DigitValue(s[|s| - 1])
  }

  /** `Decimal` is inverted by reading the digits back, so distinct numbers give
      distinct strings. */
  lemma {:induction false} DecimalRoundTrip(n: nat)
    ensures DigitsValue(Decimal(n)) == n
  {
    if n >= 10 {
      DecimalRoundTrip(n / 10);
      var r := Decimal(n);
      assert r[..|r| - 1] == Decimal(n / 10);
    }
  }

  /** `s.split(sep)[-1]`: the part of `s` after its last `sep`, or all of `s`
      when `sep` does not occur. */
  function LastField(s: string, sep: char): string
  {
    if s == [] || s[|s| - 1] == sep then [] else LastField(s[..|s| - 1], sep) + [s[|s| - 1]]
  }

  /** The last field is the longest suffix of `s` free of `sep`: it holds no
      `sep`, and it is either all of `s` or preceded by a `sep`. */
  lemma {:induction false} LastFieldIsSuffix(s: string, sep: char)
    ensures var r := LastField(s, sep);
      |r| <= |s| && r == s[|s| - |r|..] && sep !in r &&
      (|r| < |s| ==> s[|s| - |r| - 1] == sep)
  {
    if s != [] && s[|s| - 1] != sep {
      var t := s[..|s| - 1];
      LastFieldIsSuffix(t, sep);
      var r := LastField(t, sep);
      assert LastField(s, sep) == r + [s[|s| - 1]];
      assert t[|t| - |r|..] + [s[|s| - 1]] == s[|s| - |r| - 1..];
    }
  }
}
