/** Decimal text: Python's `int(str)` as the ID filter uses it, and
    `str(n)` as the output file names use it. */
module Decimal {
  import opened Common

  predicate IsDigit(c: char) {
    '0' <= c <= '9'
  }

  predicate IsSign(c: char) {
    c == '+' || c == '-'
  }

  predicate AllDigits(s: string) {
    forall k | 0 <= k < |s| :: IsDigit(s[k])
  }

  function DigitChar(d: nat): (c: char)
    requires d < 10
    ensures IsDigit(c)
  {
    ('0' as int + d) as char
  }

  function DigitValue(c: char): (d: nat)
    requires IsDigit(c)
    ensures d < 10 && DigitChar(d) == c
  {
    c as int - '0' as int
  }

  /** The number a string of decimal digits denotes (leading zeros allowed). */
  function DigitsValue(s: string): nat
    requires AllDigits(s)
  {
    if |s| == 0 then 0 else DigitsValue(s[..|s| - 1]) * 10 + DigitValue(s[|s| - 1])
  }

  /** `int(s)` for an optional sign followed by at least one ASCII digit;
      `None` where Python raises `ValueError`. */
  function ParseInt(s: string): (r: Option<int>)
    ensures r.Some? <==> || (|s| > 0 && AllDigits(s))
                         || (|s| > 1 && IsSign(s[0]) && AllDigits(s[1..]))
    ensures |s| > 0 && AllDigits(s) ==> r == Some(DigitsValue(s) as int)
    ensures |s| > 1 && s[0] == '+' && AllDigits(s[1..]) ==> r == Some(DigitsValue(s[1..]) as int)
    ensures |s| > 1 && s[0] == '-' && AllDigits(s[1..]) ==> r == Some(-(DigitsValue(s[1..]) as int))
  {
    if |s| > 0 && (s[0] == '+' || s[0] == '-') then
      var digits := s[1..];
      if |digits| > 0 && AllDigits(digits) then
        var magnitude: int := DigitsValue(digits);
        Some(if s[0] == '-' then -magnitude else magnitude)
      else None
    else if |s| > 0 && AllDigits(s) then Some(DigitsValue(s))
    else None
  }

  /** `str(n)` for a non-negative integer. */
  function Show(n: nat): (s: string)
    ensures |s| > 0 && AllDigits(s)
    ensures n < 10 <==> |s| == 1
    ensures n > 0 ==> s[0] != '0'
  {
    if n < 10 then [DigitChar(n)] else Show(n / 10) + [DigitChar(n % 10)]
  }

  /** `str` and `int` are inverse on non-negative integers. */
  lemma {:induction false} ShowDigitsValue(n: nat)
    ensures DigitsValue(Show(n)) == n
  {
    if n >= 10 {
      ShowDigitsValue(n / 10);
      var s := Show(n);
      assert s[..|s| - 1] == Show(n / 10);
    }
  }

  /** A run of digits ended by a non-digit mark is read back uniquely. */
  lemma SplitAfterDigits(p1: string, q1: string, p2: string, q2: string, c: char)
    requires AllDigits(p1) && AllDigits(p2) && !IsDigit(c)
    requires p1 + [c] + q1 == p2 + [c] + q2
    ensures p1 == p2 && q1 == q2
  {
    var s := p1 + [c] + q1;
    assert s[|p1|] == c && (p2 + [c] + q2)[|p2|] == c;
    assert |p1| == |p2|;
    assert p1 == s[..|p1|] && p2 == s[..|p2|];
    assert q1 == s[|p1| + 1..] && q2 == s[|p2| + 1..];
  }

  /** `str` is one-to-one. */
  lemma ShowInjective(m: nat, n: nat)
    ensures Show(m) == Show(n) ==> m == n
  {
    ShowDigitsValue(m);
    ShowDigitsValue(n);
  }

  /** `int(str(n)) == n`, and `int("-" + str(n)) == -n`. */
  lemma ParseShow(n: nat)
    ensures ParseInt(Show(n)) == Some(n as int)
    ensures ParseInt("-" + Show(n)) == Some(-(n as int))
  {
    ShowDigitsValue(n);
    assert ("-" + Show(n))[1..] == Show(n);
  }
}
