/** Numerals as text: what the tools write for a number, and the number a numeral stands for. */
module Numerals {

  function Digit(d: nat): (c: char)
    requires d < 10
    ensures '0' <= c <= '9'
  {
    "0123456789"[d]
  }

  /** The decimal numeral of `n`. */
  function Decimal(n: nat): (r: string)
    ensures |r| > 0
  {
    if n < 10 then [Digit(n)] else Decimal(n / 10) + [Digit(n % 10)]
  }

  /** The text of an integer: a minus sign if it is negative, then the numeral of its magnitude. */
  function IntText(n: int): string { if n < 0 then "-" + Decimal(-n) else Decimal(n) }

  predicate IsDigit(c: char) { '0' <= c <= '9' }

  function DigitValue(c: char): int { c as int - '0' as int }

  /** The value of a string of digits in a base. */
  function Value(base: nat, s: string): int {
    if s == "" then 0 else base * Value(base, s[..|s| - 1]) + DigitValue(s[|s| - 1])
  }

  lemma DigitOf(d: nat)
    requires d < 10
    ensures DigitValue(Digit(d)) == d
  {
  }

  /** One more digit. */
  lemma ValueSnoc(base: nat, s: string, c: char)
    ensures Value(base, s + [c]) == base * Value(base, s) + DigitValue(c)
  {
    assert (s + [c])[..|s|] == s;
  }

  /** A numeral denotes its number, in digits, without a leading zero unless it is "0". */
  lemma {:induction false} DecimalValue(n: nat)
    ensures Value(10, Decimal(n)) == n
    ensures forall k | 0 <= k < |Decimal(n)| :: IsDigit(Decimal(n)[k])
    ensures n > 0 ==> Decimal(n)[0] != '0'
  {
    if n < 10 {
      assert Decimal(n)[..0] == "";
      DigitOf(n);
    } else {
      DecimalValue(n / 10);
      DigitOf(n % 10);
      ValueSnoc(10, Decimal(n / 10), Digit(n % 10));
    }
  }
}
