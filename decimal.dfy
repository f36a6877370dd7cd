/** Decimal text of integers, as Go's fmt package prints an `int` or an
    `int64` when a template substitutes one: an optional '-' followed by
    the digits of the absolute value, most significant first, no leading
    zeros. The parser is the partner used to show the text is faithful. */
module Decimal {

  predicate IsDigit(c: char) {
    '0' <= c <= '9'
  }

  predicate AllDigits(s: string) {
    forall k | 0 <= k < |s| :: IsDigit(s[k])
  }

  function DigitChar(d: nat): (c: char)
    requires d < 10
    ensures IsDigit(c)
  {
    ('0' as int + d) as char
  }

  function DigitValue(c: char): (d: nat)
    requires IsDigit(c)
    ensures d < 10
  {
    c as int - '0' as int
  }

  /** Decimal digits of n, without sign or leading zeros. */
  function NatToString(n: nat): (s: string)
    ensures 1 <= |s| && AllDigits(s)
    ensures |s| > 1 ==> s[0] != '0'
    decreases n
  {
    if n < 10 then [DigitChar(n)] else NatToString(n / 10) + [DigitChar(n % 10)]
  }

  /** The text Go prints for an integer value. */
  function IntToString(x: int): (s: string)
    ensures 1 <= |s|
    ensures s[0] == '-' <==> x < 0
    ensures x >= 0 ==> AllDigits(s)
    ensures x < 0 ==> AllDigits(s[1..])
    ensures x >= 0 ==> |s| == 1 || s[0] != '0'
    ensures x < 0 ==> 2 <= |s| && s[1] != '0'
  {
    if x < 0 then "-" + NatToString(-x) else NatToString(x)
  }

  /** Value of a non-empty run of decimal digits. */
  function ParseNat(s: string): nat
    requires 1 <= |s| && AllDigits(s)
    decreases |s|
  {
    if |s| == 1 then DigitValue(s[0])
    else ParseNat(s[..|s| - 1]) * 10 + DigitValue(s[|s| - 1])
  }

  /** Value of an optionally signed decimal numeral. */
  function ParseInt(s: string): int
    requires 1 <= |s|
    requires if s[0] == '-' then 2 <= |s| && AllDigits(s[1..]) else AllDigits(s)
  {
    if s[0] == '-' then -(ParseNat(s[1..]) as int) else ParseNat(s)
  }

  lemma {:induction false} ParseNatToString(n: nat)
    ensures ParseNat(NatToString(n)) == n
    decreases n
  {
    if n >= 10 {
      var s := NatToString(n);
      assert s[..|s| - 1] == NatToString(n / 10);
      ParseNatToString(n / 10);
    }
  }

  /** Parsing the printed text gives back the integer: the printed form
      is a faithful decimal rendering. */
  lemma IntToStringRoundTrip(x: int)
    ensures var s := IntToString(x);
      (if s[0] == '-' then 2 <= |s| && AllDigits(s[1..]) else AllDigits(s)) &&
      ParseInt(s) == x
  {
    if x < 0 {
      assert IntToString(x)[1..] == NatToString(-x);
      ParseNatToString(-x);
    } else {
      ParseNatToString(x);
    }
  }

  /** Distinct integers print differently. */
  lemma IntToStringInjective(x: int, y: int)
    requires IntToString(x) == IntToString(y)
    ensures x == y
  {
    IntToStringRoundTrip(x);
    IntToStringRoundTrip(y);
  }
}
