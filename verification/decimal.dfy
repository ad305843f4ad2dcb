/**
 Decimal rendering of message identifiers (`formatID`, which is
 `fmt.Sprintf("%d", id)` on a non-negative counter) and its inverse.
 */
module Decimal {

  predicate IsDigit(c: char) {
    '0' <= c <= '9'
  }

  predicate AllDigits(s: string) {
    forall k :: 0 <= k < |s| ==> IsDigit(s[k])
  }

  /** A non-empty string of decimal digits. */
  predicate IsDecimal(s: string) {
    |s| >= 1 && AllDigits(s)
  }

  function DigitChar(d: nat): (c: char)
    requires d < 10
    ensures IsDigit(c) && c as int - '0' as int == d
  {
    ('0' as int + d) as char
  }

  function DigitValue(c: char): nat
    requires IsDigit(c)
  {
    c as int - '0' as int
  }

  /** `formatID`: the decimal rendering of `n`, without leading zeros. */
  function FormatId(n: nat): (r: string)
    decreases n
    ensures IsDecimal(r)
    ensures |r| > 1 ==> r[0] != '0'
  {
    if n < 10 then [DigitChar(n)] else FormatId(n / 10) + [DigitChar(n % 10)]
  }

  /** The number a string of decimal digits denotes. */
  function Value(s: string): nat
    requires AllDigits(s)
  {
    if s == [] then 0
    else Value(s[..|s| - 1]) * 10 + DigitValue(s[|s| - 1])
  }

  /** Reading a rendered identifier back gives the counter it came from. */
  lemma {:induction false} ValueOfFormatId(n: nat)
    ensures Value(FormatId(n)) == n
    decreases n
  {
    if n >= 10 {
      ValueOfFormatId(n / 10);
      var f := FormatId(n / 10);
      assert FormatId(n)[..|FormatId(n)| - 1] == f;
    }
  }

  /** Distinct counters render to distinct identifiers. */
  lemma FormatIdInjective(a: nat, b: nat)
    ensures FormatId(a) == FormatId(b) ==> a == b
  {
    ValueOfFormatId(a);
    ValueOfFormatId(b);
  }
}
