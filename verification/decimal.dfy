/** Decimal rendering of integers as Python's `str(int)` produces it (an optional
    leading '-', then digits with no leading zero), together with a parser that
    inverts it. The listing prints task ids and totals this way. */
module Decimal {
  import opened Wrappers

  predicate IsDigit(c: char) {
    '0' <= c <= '9'
  }

  predicate AllDigits(s: string) {
    forall i :: 0 <= i < |s| ==> IsDigit(s[i])
  }

  function DigitChar(d: nat): (c: char)
    requires d < 10
    ensures IsDigit(c)
  {
    "0123456789"[d]
  }

  function DigitValue(c: char): (d: nat)
    requires IsDigit(c)
    ensures d < 10
  {
    (c as int - '0' as int) as nat
  }

  /** Digits of `n`, most significant first, with no leading zero. */
  function NatToString(n: nat): (s: string)
    ensures 1 <= |s|
    ensures AllDigits(s)
    ensures 1 < |s| ==> s[0] != '0'
    ensures n < 10 <==> |s| == 1
    decreases n
  {
    if n < 10 then [DigitChar(n)] else NatToString(n / 10) + [DigitChar(n % 10)]
  }

  /** The text `str(i)` gives in Python. */
  function IntToString(i: int): (s: string)
    ensures 1 <= |s|
    ensures i < 0 <==> s[0] == '-'
    ensures forall k :: 0 <= k < |s| ==> IsDigit(s[k]) || (k == 0 && s[k] == '-')
    ensures var d := if i < 0 then s[1..] else s; 1 < |d| ==> d[0] != '0'
  {
    if i < 0 then "-" + NatToString(-i) else NatToString(i)
  }

  /** The value of a string of decimal digits (the empty string is 0). */
  function DigitsValue(s: string): nat
    requires AllDigits(s)
  {
    if s == [] then 0 else DigitsValue(s[..|s| - 1]) * 10 + DigitValue(s[|s| - 1])
  }

  /** Reads an optionally negative decimal integer; fails on anything else. */
  function ParseInt(s: string): Option<int> {
    if 0 < |s| && s[0] == '-' then
      if 1 < |s| && AllDigits(s[1..]) then Some(0 - DigitsValue(s[1..])) else None
    else if 0 < |s| && AllDigits(s) then Some(DigitsValue(s))
    else None
  }

  lemma DigitRoundTrip(d: nat)
    requires d < 10
    ensures DigitValue(DigitChar(d)) == d
  {
  }

  lemma {:induction false} NatRoundTrip(n: nat)
    ensures DigitsValue(NatToString(n)) == n
    decreases n
  {
    var s := NatToString(n);
    if n < 10 {
      DigitRoundTrip(n);
      assert s[..|s| - 1] == [];
    } else {
      NatRoundTrip(n / 10);
      DigitRoundTrip(n % 10);
      assert s[..|s| - 1] == NatToString(n / 10);
    }
  }

  /** Parsing the rendered text gives back the integer. */
  lemma IntRoundTrip(i: int)
    ensures ParseInt(IntToString(i)) == Some(i)
  {
    var s := IntToString(i);
    if i < 0 {
      var d := NatToString(-i);
      assert s == "-" + d;
      assert s[1..] == d;
      NatRoundTrip(-i);
      assert ParseInt(s) == Some(0 - DigitsValue(d));
    } else {
      var d := NatToString(i);
      assert s == d && s[0] != '-';
      NatRoundTrip(i);
      assert ParseInt(s) == Some(DigitsValue(d));
    }
  }

  /** Distinct integers render as distinct text. */
  lemma IntToStringInjective(i: int, j: int)
    ensures IntToString(i) == IntToString(j) ==> i == j
  {
    IntRoundTrip(i);
    IntRoundTrip(j);
  }
}
