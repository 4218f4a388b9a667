/**
 * Decimal rendering of integers, as Java's `String.valueOf(int)`, `String.valueOf(long)`
 * and `String.format("%s", n)` produce it, with a parser as its inverse.
 */
module Decimal {

  function DigitChar(d: nat): (c: char)
    requires d < 10
    ensures '0' <= c <= '9'
  {
    (48 + d) as char
  }

  function DigitValue(c: char): (d: nat)
    requires '0' <= c <= '9'
    ensures d < 10
  {
    (c as int) - 48
  }

  predicate IsDigits(s: string)
  {
    forall i :: 0 <= i < |s| ==> '0' <= s[i] <= '9'
  }

  /** The digits of `n`, most significant first, with no leading zeros. */
  function Digits(n: nat): (s: string)
    ensures |s| >= 1 && IsDigits(s)
    ensures |s| > 1 ==> s[0] != '0'
    decreases n
  {
    if n < 10 then [DigitChar(n)] else Digits(n / 10) + [DigitChar(n % 10)]
  }

  /** `String.valueOf(n)`: an optional minus sign followed by the digits of `|n|`. */
  function IntToString(n: int): (s: string)
    ensures |s| >= 1
    ensures forall i :: 0 <= i < |s| ==> s[i] == '-' || '0' <= s[i] <= '9'
    ensures (n < 0) == (s[0] == '-')
  {
    if n < 0 then "-" + Digits(-n) else Digits(n)
  }

  function ParseDigits(s: string): nat
    requires IsDigits(s)
    decreases |s|
  {
    if s == [] then 0 else ParseDigits(s[..|s| - 1]) * 10 + DigitValue(s[|s| - 1])
  }

  /** Reads back what `IntToString` writes (`Integer.parseInt` on such strings). */
  function ParseInt(s: string): int
    requires |s| >= 1
    requires forall i :: 0 <= i < |s| ==> s[i] == '-' || '0' <= s[i] <= '9'
    requires forall i :: 1 <= i < |s| ==> s[i] != '-'
  {
    if s[0] == '-' then 0 - ParseDigits(s[1..]) as int else ParseDigits(s)
  }

  lemma {:induction false} DigitsRoundTrip(n: nat)
    ensures ParseDigits(Digits(n)) == n
    decreases n
  {
    if n >= 10 {
      DigitsRoundTrip(n / 10);
      var s := Digits(n);
      assert s[..|s| - 1] == Digits(n / 10);
    }
  }

  /** Rendering then parsing gives the number back, so distinct numbers render differently. */
  lemma IntToStringRoundTrip(n: int)
    ensures forall i :: 1 <= i < |IntToString(n)| ==> IntToString(n)[i] != '-'
    ensures ParseInt(IntToString(n)) == n
  {
    DigitsRoundTrip(if n < 0 then -n else n);
    if n < 0 {
      assert IntToString(n)[1..] == Digits(-n);
    }
  }

  lemma IntToStringInjective(m: int, n: int)
    requires IntToString(m) == IntToString(n)
    ensures m == n
  {
    IntToStringRoundTrip(m);
    IntToStringRoundTrip(n);
  }
}
