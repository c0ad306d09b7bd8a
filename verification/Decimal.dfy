// Decimal numerals.
module Decimal {

  predicate IsNum(c: char) { '0' <= c <= '9' }

  function Digit(c: char): (d: nat)
    requires IsNum(c)
    ensures d <= 9
  {
    c as int - '0' as int
  }

  predicate AllDigits(d: string) {
    d != "" && forall i :: 0 <= i < |d| ==> IsNum(d[i])
  }

  /** The value of a decimal numeral. */
  function DecValue(d: string): nat
    requires forall i :: 0 <= i < |d| ==> IsNum(d[i])
  {
    if d == "" then 0 else DecValue(d[..|d| - 1]) * 10 + Digit(d[|d| - 1])
  }
}
