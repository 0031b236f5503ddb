/** Decimal digit strings: how Redis renders a counter (INCR stores the integer
    as its decimal text, GET returns that text) and how `parseInt(s, 10)` reads
    a well-formed decimal string back. */
module Decimal {

  predicate IsDigit(c: char) {
    '0' <= c <= '9'
  }

  function DigitValue(c: char): (d: nat)
    requires IsDigit(c)
    ensures d < 10
  {
    (c as int) - ('0' as int)
  }

  function DigitChar(d: nat): (c: char)
    requires d < 10
    ensures IsDigit(c) && DigitValue(c) == d
  {
    (('0' as int) + d) as char
  }

  predicate AllDigits(s: string) {
    forall i :: 0 <= i < |s| ==> IsDigit(s[i])
  }

  /** The value of a string of digits, most significant digit first. */
  function DigitsValue(s: string): (v: nat)
    requires AllDigits(s)
  {
    if |s| == 0 then 0 else DigitsValue(s[..|s| - 1]) * 10 + DigitValue(s[|s| - 1])
  }

  /** The decimal text of a natural number, without leading zeros. */
  function Show(n: nat): (s: string)
    ensures 1 <= |s| && AllDigits(s)
    ensures s[0] == '0' ==> n == 0
  {
    if n < 10 then [DigitChar(n)] else Show(n / 10) + [DigitChar(n % 10)]
  }

  /** A string `parseInt(s, 10)` reads completely: an optional minus sign and at least one digit. */
  predicate IsDecimal(s: string) {
    (1 <= |s| && AllDigits(s)) || (2 <= |s| && s[0] == '-' && AllDigits(s[1..]))
  }

  /** `parseInt(s, 10)` on a well-formed decimal string. */
  function ParseInt(s: string): (n: int)
    requires IsDecimal(s)
  {
    if s[0] == '-' then 0 - DigitsValue(s[1..]) else DigitsValue(s)
  }

  lemma {:induction false} ShowDigitsValue(n: nat)
    ensures DigitsValue(Show(n)) == n
  {
    var s := Show(n);
    if n >= 10 {
      ShowDigitsValue(n / 10);
      assert s[..|s| - 1] == Show(n / 10);
    }
  }

  /** Reading back what Redis renders gives the same number: `parseInt(String(n), 10) == n`. */
  lemma ParseIntShow(n: nat)
    ensures IsDecimal(Show(n)) && ParseInt(Show(n)) == n
  {
    ShowDigitsValue(n);
  }
}
