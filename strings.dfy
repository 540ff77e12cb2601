/**
  The few Python 2 string operations the record-and-replay engine relies on:
  `startswith`, `strip()`, the first occurrence of a separator, and decimal
  formatting of an integer with `%s`.
 */
module Strings {
  import opened Wrappers

  /** The characters Python 2's `str.strip()` removes when called without an argument. */
  predicate IsSpace(c: char) {
    c == ' ' || c == '\t' || c == '\n' || c == '\r' || c == '\U{B}' || c == '\U{C}'
  }

  predicate AllSpace(s: string) {
    forall c :: c in s ==> IsSpace(c)
  }

  /** Python's `s.startswith(p)`. */
  predicate StartsWith(s: string, p: string) {
    p <= s
  }

  predicate EndsWith(s: string, p: string) {
    |p| <= |s| && s[|s| - |p|..] == p
  }

  /** Drops leading whitespace: what is left is a suffix that starts with a non-space. */
  function TrimLeft(s: string): (r: string)
    ensures |r| <= |s| && r == s[|s| - |r|..]
    ensures AllSpace(s[..|s| - |r|])
    ensures r != [] ==> !IsSpace(r[0])
    decreases |s|
  {
    if |s| > 0 && IsSpace(s[0]) then
      var tail := s[1..];
      var r := TrimLeft(tail);
      assert s[..|s| - |r|] == [s[0]] + tail[..|tail| - |r|];
      assert tail[|tail| - |r|..] == s[|s| - |r|..];
      r
    else
      s
  }

  /** Drops trailing whitespace: what is left is a prefix that ends with a non-space. */
  function TrimRight(s: string): (r: string)
    ensures |r| <= |s| && r == s[..|r|]
    ensures AllSpace(s[|r|..])
    ensures r != [] ==> !IsSpace(r[|r| - 1])
    decreases |s|
  {
    if |s| > 0 && IsSpace(s[|s| - 1]) then
      var init := s[..|s| - 1];
      var r := TrimRight(init);
      assert s[|r|..] == init[|r|..] + [s[|s| - 1]];
      assert init[..|r|] == s[..|r|];
      r
    else
      s
  }

  /** `r` is `s` with a whitespace-only prefix and a whitespace-only suffix cut away. */
  predicate TrimmedFrom(r: string, s: string) {
    exists i, j :: 0 <= i <= j <= |s| && r == s[i..j] && AllSpace(s[..i]) && AllSpace(s[j..])
  }

  /**
    Python's `s.strip()`: the leading whitespace is cut away, then the trailing
    whitespace of what is left (TrimLeft and TrimRight say what each cut
    keeps); the result neither starts nor ends with whitespace.
   */
  function Strip(s: string): (r: string)
    ensures |r| <= |s|
    ensures r == [] || (!IsSpace(r[0]) && !IsSpace(r[|r| - 1]))
  {
    TrimRight(TrimLeft(s))
  }

  /** What `strip()` returns is the input with whitespace cut from both ends, and nothing else removed. */
  lemma StripTrimsEnds(s: string)
    ensures TrimmedFrom(Strip(s), s)
  {
    var left := TrimLeft(s);
    var r := TrimRight(left);
    var i := |s| - |left|;
    assert left == s[i..];
    assert r == s[i..][..|r|] == s[i..i + |r|];
    assert left[|r|..] == s[i + |r|..];
    assert AllSpace(s[..i]) && AllSpace(s[i + |r|..]);
  }

  /** A value that begins with whitespace is changed by stripping. */
  lemma StripChangesLeadingSpace(s: string)
    requires s != [] && IsSpace(s[0])
    ensures Strip(s) != s
  {
  }

  /** The position of the first `c` in `s`, or `None` when `s` holds no `c`. */
  function FirstIndex(s: string, c: char): (r: Option<nat>)
    ensures r.None? <==> c !in s
    ensures r.Some? ==> r.value < |s| && s[r.value] == c && c !in s[..r.value]
    decreases |s|
  {
    if s == [] then None
    else if s[0] == c then Some(0)
    else
      match FirstIndex(s[1..], c)
      case None => None
      case Some(k) =>
        assert s[..k + 1] == [s[0]] + s[1..][..k];
        Some(k + 1)
  }

  predicate IsDigit(c: char) {
    '0' <= c <= '9'
  }

  /** The number a string of decimal digits denotes, most significant digit first. */
  function DigitsValue(s: string): int
    decreases |s|
  {
    if s == [] then 0 else 10 * DigitsValue(s[..|s| - 1]) + (s[|s| - 1] as int - '0' as int)
  }

  function DigitChar(d: nat): (c: char)
    requires d < 10
    ensures IsDigit(c) && c as int - '0' as int == d
  {
    ('0' as int + d) as char
  }

  /** `'%s' % n` for a non-negative integer: decimal digits that denote `n`, without leading zeros. */
  function Decimal(n: nat): (r: string)
    ensures |r| >= 1
    ensures forall i :: 0 <= i < |r| ==> IsDigit(r[i])
    ensures DigitsValue(r) == n
    ensures r[0] == '0' ==> n == 0
    ensures n >= 10 ==> |r| >= 2
    decreases n
  {
    if n < 10 then [DigitChar(n)]
    else
      var init := Decimal(n / 10);
      var r := init + [DigitChar(n % 10)];
      assert r[..|r| - 1] == init;
      r
  }

  /** Two different integers never format to the same text: the digits give the number back. */
  lemma DecimalInjective(a: nat, b: nat)
    requires Decimal(a) == Decimal(b)
    ensures a == b
  {
    assert a == DigitsValue(Decimal(a)) == DigitsValue(Decimal(b)) == b;
  }
}
