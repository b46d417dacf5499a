/** Decimal numerals, by the value of each digit at its place. */
module Numerals {

  predicate IsDigit(c: char) {
    '0' <= c <= '9'
  }

  predicate AllDigits(t: string) {
    forall i :: 0 <= i < |t| ==> IsDigit(t[i])
  }

  function Pow10(n: nat): nat {
    if n == 0 then 1 else 10 * Pow10(n - 1)
  }

  /** Each digit times the power of ten that its distance from the end asks for. */
  function DigitSum(t: string): nat
    requires AllDigits(t)
  {
    if t == "" then 0 else (t[0] as int - '0' as int) * Pow10(|t| - 1) + DigitSum(t[1..])
  }

  /** An optional minus sign and at least one digit. */
  predicate IsNumeral(t: string, n: int) {
    if t != "" && t[0] == '-' then t[1..] != "" && AllDigits(t[1..]) && n == 0 - DigitSum(t[1..])
    else t != "" && AllDigits(t) && n == DigitSum(t)
  }

  lemma {:induction false} SumSnoc(t: string, c: char)
    requires AllDigits(t) && IsDigit(c)
    ensures AllDigits(t + [c]) && DigitSum(t + [c]) == 10 * DigitSum(t) + (c as int - '0' as int)
  {
    if t == "" {
      assert t + [c] == [c] && [c][1..] == "";
      assert Pow10(0) == 1;
    } else {
      var d := t[0] as int - '0' as int;
      assert (t + [c])[1..] == t[1..] + [c];
      SumSnoc(t[1..], c);
      assert Pow10(|t|) == 10 * Pow10(|t| - 1);
      assert d * (10 * Pow10(|t| - 1)) == 10 * (d * Pow10(|t| - 1));
    }
  }
}
