/** Decimal numerals without leading zeros. */
module Digits {

  predicate IsDigit(c: char) { '0' <= c <= '9' }

  function Digit(d: nat): (c: char)
    requires d < 10
    ensures IsDigit(c) && DigitValue(c) == d
  {
    '0' + d as char
  }

  function DigitValue(c: char): (d: nat)
    requires IsDigit(c)
    ensures d < 10
  {
    (c - '0') as nat
  }

  predicate AllDigits(s: string) { forall i :: 0 <= i < |s| ==> IsDigit(s[i]) }

  function Numeral(n: nat): (s: string)
    ensures |s| > 0 && AllDigits(s) && (s[0] == '0' ==> n == 0)
  {
    if n < 10 then [Digit(n)] else Numeral(n / 10) + [Digit(n % 10)]
  }

  /** The number a digit string stands for; leading zeros are allowed. */
  function Value(s: string): nat
    requires AllDigits(s)
  {
    if s == [] then 0 else 10 * Value(s[..|s| - 1]) + DigitValue(s[|s| - 1])
  }

  lemma {:induction false} NumeralReadsBack(n: nat)
    ensures Value(Numeral(n)) == n
  {
    if n >= 10 {
      NumeralReadsBack(n / 10);
      assert Numeral(n)[..|Numeral(n)| - 1] == Numeral(n / 10);
    } else {
      assert Numeral(n)[..0] == [];
    }
  }

  function Pow10(n: nat): (p: nat)
    ensures p > 0
  {
    if n == 0 then 1 else 10 * Pow10(n - 1)
  }

  lemma {:induction false} PowAdd(a: nat, b: nat)
    ensures Pow10(a + b) == Pow10(a) * Pow10(b)
  {
    if b > 0 {
      PowAdd(a, b - 1);
      assert a + b - 1 == a + (b - 1);
    }
  }

  lemma ShiftByTen(a: nat, b: nat, p: nat, v: nat, d: nat)
    requires v == a * p + b
    ensures v * 10 + d == a * (10 * p) + (b * 10 + d)
  {
  }

  lemma {:induction false} ValueConcat(a: string, b: string)
    requires AllDigits(a) && AllDigits(b)
    ensures AllDigits(a + b) && Value(a + b) == Value(a) * Pow10(|b|) + Value(b)
  {
    if b == [] {
      assert a + b == a;
    } else {
      var front := b[..|b| - 1];
      ValueConcat(a, front);
      assert (a + b)[..|a + b| - 1] == a + front;
      ShiftByTen(Value(a), Value(front), Pow10(|front|), Value(a + front), Value(b) - Value(front) * 10);
    }
  }

  lemma {:induction false} ValueBound(s: string)
    requires AllDigits(s)
    ensures Value(s) < Pow10(|s|)
  {
    if s != [] { ValueBound(s[..|s| - 1]); }
  }

  /** The length of a numeral says how large its number is. */
  lemma {:induction false} NumeralLength(n: nat, d: nat)
    requires d > 0
    ensures |Numeral(n)| <= d <==> n < Pow10(d)
  {
    if n >= 10 && d > 1 {
      NumeralLength(n / 10, d - 1);
    } else if n >= 10 {
      assert Pow10(1) == 10 * Pow10(0);
    } else {
      assert Pow10(d) == 10 * Pow10(d - 1);
    }
  }
}
