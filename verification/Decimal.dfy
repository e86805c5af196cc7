/**
 * std::to_string on int, as the solver's error messages use it: the shortest decimal text of a
 * number, with a leading '-' for negative numbers, and the reading that recovers the number.
 */
module Decimal {

  predicate IsDigit(ch: char)
  {
    '0' <= ch <= '9'
  }

  /** The character of a decimal digit. */
  function DigitChar(d: int): (ch: char)
    requires 0 <= d < 10
    ensures IsDigit(ch) && ch as int - '0' as int == d
  {
    ('0' as int + d) as char
  }

  predicate AllDigits(s: string)
  {
    forall i :: 0 <= i < |s| ==> IsDigit(s[i])
  }

  /** The decimal text of n: digits only, never empty, no leading zero. */
  function NatToString(n: nat): (s: string)
    ensures |s| >= 1 && AllDigits(s)
    ensures |s| > 1 ==> s[0] != '0'
    decreases n
  {
    if n < 10 then [DigitChar(n)] else NatToString(n / 10) + [DigitChar(n % 10)]
  }

  /** The number a string of digits denotes. */
  function DigitsValue(s: string): nat
    requires AllDigits(s)
    decreases |s|
  {
    if s == [] then 0 else DigitsValue(s[..|s| - 1]) * 10 + (s[|s| - 1] as int - '0' as int)
  }

  /** std::to_string(int). */
  function IntToString(i: int): (s: string)
    ensures |s| >= 1 && (s[0] == '-' <==> i < 0)
  {
    if i < 0 then "-" + NatToString(-i) else NatToString(i)
  }

  /** The texts IntToString produces: an optional '-' before a nonempty run of digits. */
  predicate IsIntText(s: string)
  {
    if |s| >= 1 && s[0] == '-' then |s| >= 2 && AllDigits(s[1..]) else |s| >= 1 && AllDigits(s)
  }

  /** std::stoi on the texts IntToString produces. */
  function ParseInt(s: string): int
    requires IsIntText(s)
  {
    if s[0] == '-' then -(DigitsValue(s[1..]) as int) else DigitsValue(s)
  }

  /** Reading back the decimal text of n gives n. */
  lemma {:induction false} NatRoundTrip(n: nat)
    ensures DigitsValue(NatToString(n)) == n
    decreases n
  {
    var s := NatToString(n);
    if n >= 10 {
      NatRoundTrip(n / 10);
      assert s[..|s| - 1] == NatToString(n / 10);
    }
  }

  /** IntToString always yields well-formed text, and reading it back gives the number. */
  lemma IntRoundTrip(i: int)
    ensures IsIntText(IntToString(i)) && ParseInt(IntToString(i)) == i
  {
    if i < 0 {
      NatRoundTrip(-i);
      assert IntToString(i)[1..] == NatToString(-i);
    } else {
      NatRoundTrip(i);
    }
  }

  /** Different numbers have different texts, so a message names its numbers unambiguously. */
  lemma IntToStringInjective(i: int, j: int)
    ensures IntToString(i) == IntToString(j) ==> i == j
  {
    IntRoundTrip(i);
    IntRoundTrip(j);
  }
}
