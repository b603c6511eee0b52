/** `String(n)` and `Number(s)` restricted to non-negative whole numbers
    written in decimal digits: the form in which the savings goal is kept in
    browser storage. */
module Decimal {

  /** An ASCII decimal digit, which is exactly what `\d` matches in a
      JavaScript regular expression. */
  predicate IsDigit(c: char)
  {
    '0' <= c <= '9'
  }

  predicate AllDigits(s: string)
  {
    forall i :: 0 <= i < |s| ==> IsDigit(s[i])
  }

  function DigitChar(d: nat): (c: char)
    requires d < 10
    ensures IsDigit(c) && c as int - '0' as int == d
  {
    ('0' as int + d) as char
  }

  function DigitValue(c: char): (d: nat)
    requires IsDigit(c)
    ensures d < 10
  {
    c as int - '0' as int
  }

  /** `String(n)`: the shortest decimal numeral of `n`. */
  function Show(n: nat): (s: string)
    ensures s != [] && AllDigits(s)
    ensures |s| == 1 || s[0] != '0'
  {
    if n < 10 then [DigitChar(n)] else Show(n / 10) + [DigitChar(n % 10)]
  }

  /** `10` to the power `k`. */
  function Pow10(k: nat): (p: nat)
    ensures p >= 1
  {
    if k == 0 then 1 else 10 * Pow10(k - 1)
  }

  /** `Number(s)` on a string of decimal digits (the empty string reads as 0). */
  function Read(s: string): (n: nat)
    requires AllDigits(s)
    ensures s == [] ==> n == 0
    ensures n < Pow10(|s|)
  {
    if s == [] then 0 else Read(s[..|s| - 1]) * 10 + DigitValue(s[|s| - 1])
  }

  /** Leading zeros do not change the number read. */
  lemma {:induction false} ReadLeadingZero(s: string)
    requires AllDigits(s)
    ensures AllDigits(['0'] + s) && Read(['0'] + s) == Read(s)
  {
    var t := ['0'] + s;
    if s != [] {
      assert t[..|t| - 1] == ['0'] + s[..|s| - 1];
      ReadLeadingZero(s[..|s| - 1]);
    }
  }

  /** Reading back what was written gives the number that was written. */
  lemma {:induction false} ReadShow(n: nat)
    ensures Read(Show(n)) == n
  {
    var s := Show(n);
    if n < 10 {
    } else {
      ReadShow(n / 10);
      assert s[..|s| - 1] == Show(n / 10);
    }
  }
}
