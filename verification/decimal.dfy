/** Python's `str(n)` for an integer `n`, the rendering applied to a commit's
    time (seconds since the epoch) when it becomes a spreadsheet cell, together
    with the reading back that shows the rendering loses nothing. */
module Decimal {

  predicate IsDigit(c: char) {
    '0' <= c <= '9'
  }

  predicate AllDigits(s: string) {
    forall k :: 0 <= k < |s| ==> IsDigit(s[k])
  }

  function DigitChar(d: int): (c: char)
    requires 0 <= d < 10
  {
    ('0' as int + d) as char
  }

  function DigitValue(c: char): int
    requires IsDigit(c)
  {
    c as int - '0' as int
  }

  /** The decimal numeral of `n`: digits only, and no leading zero unless `n` is 0. */
  function NatToString(n: nat): (s: string)
    ensures |s| >= 1 && AllDigits(s)
    ensures s[0] == '0' <==> n == 0
    ensures n == 0 ==> s == "0"
    decreases n
  {
    if n < 10 then [DigitChar(n)]
    else NatToString(n / 10) + [DigitChar(n % 10)]
  }

  /** An optionally signed decimal numeral. */
  predicate IsNumeral(s: string) {
    && |s| >= 1
    && (s[0] == '-' ==> |s| >= 2 && AllDigits(s[1..]))
    && (s[0] != '-' ==> AllDigits(s))
  }

  /** `str(n)`: a minus sign for negative numbers, then the numeral of `|n|`. */
  function IntToString(n: int): (s: string)
    ensures IsNumeral(s)
    ensures s[0] == '-' <==> n < 0
    ensures n >= 0 ==> AllDigits(s) && (s[0] == '0' <==> n == 0)
    ensures n == 0 ==> s == "0"
    ensures n < 0 ==> |s| >= 2 && AllDigits(s[1..]) && s[1] != '0'
  {
    if n < 0 then "-" + NatToString(-n) else NatToString(n)
  }

  /** The value of a string of decimal digits, read most significant first. */
  function DigitsValue(s: string): nat
    requires AllDigits(s)
    decreases |s|
  {
    if |s| == 0 then 0
    else DigitsValue(s[..|s| - 1]) * 10 + DigitValue(s[|s| - 1])
  }

  /** Reading an optionally signed numeral, as Python's `int(s)` does for the
      strings `str` produces. */
  function StringToInt(s: string): int
    requires IsNumeral(s)
  {
    if s[0] == '-' then -(DigitsValue(s[1..]) as int) else DigitsValue(s)
  }

  /** Reading back a rendered natural number gives the number. */
  lemma {:induction false} NatToStringRoundTrip(n: nat)
    ensures DigitsValue(NatToString(n)) == n
    decreases n
  {
    var s := NatToString(n);
    if n >= 10 {
      NatToStringRoundTrip(n / 10);
      assert s[..|s| - 1] == NatToString(n / 10);
    }
  }

  /** Reading back `str(n)` gives `n`, so the time cell determines the commit time. */
  lemma IntToStringRoundTrip(n: int)
    ensures StringToInt(IntToString(n)) == n
  {
    if n < 0 {
      assert IntToString(n)[1..] == NatToString(-n);
      NatToStringRoundTrip(-n);
    } else {
      NatToStringRoundTrip(n);
    }
  }

  /** Distinct times render to distinct cells. */
  lemma IntToStringInjective(m: int, n: int)
    requires IntToString(m) == IntToString(n)
    ensures m == n
  {
    IntToStringRoundTrip(m);
    IntToStringRoundTrip(n);
  }
}
