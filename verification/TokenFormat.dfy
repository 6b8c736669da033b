/** Printing of token amounts in the admin application: fixed-point notation from integers. */
module TokenFormat {
  import opened Digits
  import opened Extrema

  // ---------------------------------------------------------------- formatTokenAmount

  function Abs(i: int): nat { if i < 0 then -i else i }

  /** toLocaleString for en-US: a comma before every three digits, from the right. */
  function Grouped(digits: string): string {
    if |digits| <= 3 then digits else Grouped(digits[..|digits| - 3]) + [','] + digits[|digits| - 3..]
  }

  function Signed(i: int, digits: string): string { (if i < 0 then ['-'] else []) + digits }

  function Zeros(n: nat): string { seq(n, _ => '0') }

  function PadStart(s: string, n: nat): string { if |s| < n then Zeros(n - |s|) + s else s }

  function Prefix(s: string, n: nat): string { if |s| < n then s else s[..n] }

  /** Division of bigints truncates toward zero. */
  function IntegerPart(value: int, divisor: nat): int
    requires divisor > 0
  {
    if value < 0 then -(-value / divisor) else value / divisor
  }

  function FractionalPart(value: int, divisor: nat): (f: int)
    requires divisor > 0
    ensures value == IntegerPart(value, divisor) * divisor + f
    ensures if value < 0 then 0 - divisor < f <= 0 else 0 <= f < divisor
  {
    if value < 0 then -(-value % divisor) else value % divisor
  }

  function Fraction(value: int, divisor: nat, decimals: nat, display: nat): string
    requires divisor > 0
  {
    var f := FractionalPart(value, divisor);
    Prefix(PadStart(Signed(f, Numeral(Abs(f))), decimals), display)
  }

  /** The divisor is BigInt(10 ** decimals): a power of ten that went through a double. */
  function FormatTokenAmount(value: int, divisor: nat, decimals: nat, display: nat): string
    requires divisor > 0
  {
    var whole := IntegerPart(value, divisor);
    Signed(whole, Grouped(Numeral(Abs(whole)))) + ['.'] + Fraction(value, divisor, decimals, display)
  }

  // ---------------------------------------------------------------- reading it back

  function DigitsOf(s: string): (r: string)
    ensures AllDigits(r)
  {
    if s == [] then []
    else DigitsOf(s[..|s| - 1]) + if IsDigit(s[|s| - 1]) then [s[|s| - 1]] else []
  }

  /** The printed number in units of its last printed place. */
  function Units(s: string): nat { Value(DigitsOf(s)) }

  lemma {:induction false} DigitsOfConcat(a: string, b: string)
    ensures DigitsOf(a + b) == DigitsOf(a) + DigitsOf(b)
  {
    if b == [] {
      assert a + b == a;
    } else {
      DigitsOfConcat(a, b[..|b| - 1]);
      assert (a + b)[..|a + b| - 1] == a + b[..|b| - 1];
    }
  }

  lemma {:induction false} DigitsOfDigits(s: string)
    requires AllDigits(s)
    ensures DigitsOf(s) == s
  {
    if s != [] {
      DigitsOfDigits(s[..|s| - 1]);
      assert s[..|s| - 1] + [s[|s| - 1]] == s;
    }
  }

  lemma DigitsSkip(a: string, c: char)
    requires !IsDigit(c)
    ensures DigitsOf(a + [c]) == DigitsOf(a)
  {
    assert (a + [c])[..|a|] == a;
  }

  lemma DigitsAround(a: string, c: char, b: string)
    requires !IsDigit(c) && AllDigits(b)
    ensures DigitsOf(a + [c] + b) == DigitsOf(a) + b
  {
    var ac := a + [c];
    DigitsSkip(a, c);
    DigitsOfConcat(ac, b);
    DigitsOfDigits(b);
  }

  lemma {:induction false} DigitsOfGrouped(s: string)
    requires AllDigits(s)
    ensures DigitsOf(Grouped(s)) == s
  {
    if |s| <= 3 {
      DigitsOfDigits(s);
    } else {
      var front, last := s[..|s| - 3], s[|s| - 3..];
      DigitsOfGrouped(front);
      DigitsAround(Grouped(front), ',', last);
      assert s == front + last;
    }
  }

  /** Digits with a comma at every fourth place from the right. */
  ghost predicate InGroups(g: string) {
    forall i :: 0 <= i < |g| ==> if (|g| - i) % 4 == 0 then g[i] == ',' else IsDigit(g[i])
  }

  lemma {:induction false} GroupedInGroups(s: string)
    requires AllDigits(s)
    ensures InGroups(Grouped(s))
  {
    if |s| > 3 { GroupedInGroups(s[..|s| - 3]); }
  }

  lemma {:induction false} ValueOfZeros(n: nat)
    ensures AllDigits(Zeros(n)) && Value(Zeros(n)) == 0
  {
    if n > 0 {
      ValueOfZeros(n - 1);
      assert Zeros(n)[..n - 1] == Zeros(n - 1);
    }
  }

  lemma MulOrder(a: nat, b: nat, d: nat)
    requires a <= b
    ensures a * d <= b * d
  {
  }

  lemma Quotient(q: nat, r: nat, d: nat)
    requires r < d
    ensures (q * d + r) / d == q
  {
    var p := (q * d + r) / d;
    if p < q { MulOrder(p + 1, q, d); } else if p > q { MulOrder(q + 1, p, d); }
  }

  lemma PrefixValue(s: string, n: nat)
    requires AllDigits(s) && n <= |s|
    ensures AllDigits(s[..n]) && Value(s[..n]) == Value(s) / Pow10(|s| - n)
  {
    var front, back := s[..n], s[n..];
    assert s == front + back;
    ValueConcat(front, back);
    ValueBound(back);
    Quotient(Value(front), Value(back), Pow10(|back|));
  }

  lemma PaddedValue(f: nat, decimals: nat)
    requires f < Pow10(decimals)
    ensures var padded := PadStart(Numeral(f), decimals);
            |padded| == Max(decimals, 1) && AllDigits(padded) && Value(padded) == f
  {
    var n, width: nat := Numeral(f), Max(decimals, 1);
    NumeralLength(f, width) by { if decimals == 0 { assert Pow10(1) == 10 * Pow10(0); } }
    NumeralReadsBack(f);
    if |n| < decimals {
      ValueOfZeros(decimals - |n|);
      ValueConcat(Zeros(decimals - |n|), n);
    }
  }

  /** The padded fraction of a non-negative amount has max(decimals, 1) digits, of which
      display are kept. */
  lemma FractionValue(f: nat, decimals: nat, display: nat)
    requires f < Pow10(decimals)
    ensures var width, s := Max(decimals, 1), Prefix(PadStart(Numeral(f), decimals), display);
            var k := Min(display, width);
            |s| == k && AllDigits(s) && Value(s) == f / Pow10(width - k)
  {
    var padded := PadStart(Numeral(f), decimals);
    PaddedValue(f, decimals);
    PrefixValue(padded, Min(display, |padded|));
    assert padded[..|padded|] == padded;
  }

  lemma Recombine(q: nat, a: nat, b: nat, x: nat, y: nat)
    ensures (q * (a * b) + (x * b + y)) * a == (q * a + x) * (a * b) + y * a
  {
    calc {
      (q * (a * b) + (x * b + y)) * a;
      (q * (a * b)) * a + (x * b + y) * a;
      (q * a) * (a * b) + (x * b * a + y * a);
      (q * a) * (a * b) + x * (a * b) + y * a;
    }
  }

  lemma FloorStep(q: nat, x: nat, y: nat, a: nat, b: nat)
    requires a > 0 && y < b
    ensures a * b > 0 && (q * (a * b) + (x * b + y)) * a / (a * b) == q * a + x
  {
    MulOrder(y + 1, b, a);
    Recombine(q, a, b, x, y);
    Quotient(q * a + x, y * a, a * b);
  }

  /** Cutting digits off the remainder is taking the floor in units of the last place kept. */
  lemma FloorInUnits(value: nat, c: nat, a: nat, b: nat)
    requires a > 0 && b > 0 && c == a * b
    ensures c > 0 && value * a / c == value / c * a + value % c / b
  {
    MulOrder(1, a, b);
    var q, r := value / c, value % c;
    var x, y := r / b, r % b;
    assert value == q * c + r && r == x * b + y;
    FloorStep(q, x, y, a, b);
  }

  lemma PartIsUnsigned(value: nat, divisor: nat, decimals: nat, display: nat)
    requires divisor > 0
    ensures Fraction(value, divisor, decimals, display) == Prefix(PadStart(Numeral(value % divisor), decimals), display)
    ensures AllDigits(Fraction(value, divisor, decimals, display))
  {
    var n := Numeral(value % divisor);
    assert Signed(value % divisor, n) == n;
  }

  /** The digits of a non-negative amount are those of the quotient, then those of the part. */
  lemma UnitsOf(value: nat, divisor: nat, decimals: nat, display: nat)
    requires divisor > 0
    ensures var part := Fraction(value, divisor, decimals, display);
            && AllDigits(part)
            && Units(FormatTokenAmount(value, divisor, decimals, display)) == value / divisor * Pow10(|part|) + Value(part)
  {
    var whole, part := Numeral(value / divisor), Fraction(value, divisor, decimals, display);
    PartIsUnsigned(value, divisor, decimals, display);
    assert Signed(value / divisor, Grouped(whole)) == Grouped(whole);
    DigitsOfGrouped(whole);
    DigitsAround(Grouped(whole), '.', part);
    NumeralReadsBack(value / divisor);
    ValueConcat(whole, part);
  }

  lemma ScaledFloor(value: nat, decimals: nat, k: nat)
    requires k <= decimals
    ensures value / Pow10(decimals) * Pow10(k) + value % Pow10(decimals) / Pow10(decimals - k)
         == value * Pow10(k) / Pow10(decimals)
  {
    PowAdd(k, decimals - k);
    FloorInUnits(value, Pow10(decimals), Pow10(k), Pow10(decimals - k));
  }

  lemma ExactPart(value: nat, decimals: nat, display: nat)
    ensures var k, part := Min(display, Max(decimals, 1)), Fraction(value, Pow10(decimals), decimals, display);
            && |part| == k && AllDigits(part)
            && value / Pow10(decimals) * Pow10(k) + Value(part) == value * Pow10(k) / Pow10(decimals)
  {
    PartIsUnsigned(value, Pow10(decimals), decimals, display);
    FractionValue(value % Pow10(decimals), decimals, display);
    if decimals > 0 {
      ScaledFloor(value, decimals, Min(display, decimals));
    } else {
      assert Pow10(decimals) == 1;
    }
  }

  /** A whole part in groups, a point, and k digits. */
  ghost predicate WellPrinted(s: string, k: nat) {
    && k < |s| && s[|s| - k - 1] == '.' && AllDigits(s[|s| - k..])
    && InGroups(s[..|s| - k - 1])
  }

  lemma FormatIsWellPrinted(value: nat, divisor: nat, decimals: nat, display: nat)
    requires divisor > 0
    ensures var s, k := FormatTokenAmount(value, divisor, decimals, display), |Fraction(value, divisor, decimals, display)|;
            WellPrinted(s, k)
  {
    var g, part := Grouped(Numeral(value / divisor)), Fraction(value, divisor, decimals, display);
    var s := FormatTokenAmount(value, divisor, decimals, display);
    PartIsUnsigned(value, divisor, decimals, display);
    GroupedInGroups(Numeral(value / divisor));
    assert s == g + ['.'] + part by { assert Signed(value / divisor, g) == g; }
    assert s[|s| - |part|..] == part && s[..|s| - |part| - 1] == g;
  }

  /** For a non-negative amount and an exact divisor the printed digits, separators aside, read
      back as the amount rounded down to the last printed place: never overstated, less than
      one such place short, and exact when every decimal is printed. */
  lemma PrintsFloor(value: nat, decimals: nat, display: nat)
    ensures var k, s := Min(display, Max(decimals, 1)), FormatTokenAmount(value, Pow10(decimals), decimals, display);
            && WellPrinted(s, k)
            && Units(s) == value * Pow10(k) / Pow10(decimals)
            && (k == decimals ==> Units(s) == value)
  {
    var divisor, k := Pow10(decimals), Min(display, Max(decimals, 1));
    UnitsOf(value, divisor, decimals, display);
    ExactPart(value, decimals, display);
    FormatIsWellPrinted(value, divisor, decimals, display);
    if k == decimals { ScaledBack(value, divisor); }
  }

  lemma ScaledBack(value: nat, p: nat)
    requires p > 0
    ensures value * p / p == value
  {
    Quotient(value, 0, p);
  }

  /** At full precision every amount reads back exactly if and only if the divisor is the power
      of ten itself; the double 10 ** decimals is, up to 22 decimals. */
  lemma LosslessIffExactDivisor(divisor: nat, decimals: nat)
    requires divisor > 0
    ensures (forall value: nat :: Units(FormatTokenAmount(value, divisor, decimals, decimals)) == value)
       <==> divisor == Pow10(decimals)
  {
    if divisor == Pow10(decimals) {
      forall value: nat
        ensures Units(FormatTokenAmount(value, divisor, decimals, decimals)) == value
      {
        PrintsFloor(value, decimals, decimals);
      }
    } else {
      InexactDivisorMisprints(divisor, decimals);
    }
  }

  lemma SmallQuotient(value: nat, divisor: nat, p: nat)
    requires 0 < divisor && value <= divisor
    ensures value / divisor * p == if value < divisor then 0 else p
  {
    if value < divisor { Quotient(0, value, divisor); } else { Quotient(1, 0, divisor); }
  }

  lemma FullPrecision(value: nat, divisor: nat, decimals: nat) returns (f: nat)
    requires divisor > 0
    ensures f < Pow10(decimals)
    ensures value < divisor ==> Units(FormatTokenAmount(value, divisor, decimals, decimals)) == f
    ensures value == divisor ==> Units(FormatTokenAmount(value, divisor, decimals, decimals)) == Pow10(decimals) + f
  {
    if value <= divisor { SmallQuotient(value, divisor, Pow10(decimals)); }
    var part := Fraction(value, divisor, decimals, decimals);
    UnitsOf(value, divisor, decimals, decimals);
    PartIsUnsigned(value, divisor, decimals, decimals);
    assert |part| == decimals;
    ValueBound(part);
    f := Value(part);
  }

  /** With a wrong divisor the divisor itself misprints, or the power of ten does. */
  lemma InexactDivisorMisprints(divisor: nat, decimals: nat)
    requires divisor > 0 && divisor != Pow10(decimals)
    ensures exists value: nat :: Units(FormatTokenAmount(value, divisor, decimals, decimals)) != value
  {
    if divisor < Pow10(decimals) {
      var f := FullPrecision(divisor, divisor, decimals);
    } else {
      var f := FullPrecision(Pow10(decimals), divisor, decimals);
    }
  }

  /** A negative amount prints its sign inside the fraction, unless the fraction is zero or so
      small that the printed places do not reach it. */
  lemma StraySign(value: int, divisor: nat, decimals: nat, display: nat)
    requires divisor > 0
    ensures '-' in Fraction(value, divisor, decimals, display)
       <==> value < 0 && display > 0 && -value % divisor != 0
            && (decimals > display + 1 ==> -value % divisor >= Pow10(decimals - display - 1))
  {
    var f := FractionalPart(value, divisor);
    var n := Numeral(Abs(f));
    var padded := PadStart(Signed(f, n), decimals);
    if f < 0 {
      var at := if |n| + 1 < decimals then decimals - |n| - 1 else 0;
      assert padded[at] == '-';
      assert forall i :: 0 <= i < |padded| && i != at ==> IsDigit(padded[i]);
      if decimals > display + 1 { NumeralLength(Abs(f), decimals - display - 1); }
      assert '-' in Fraction(value, divisor, decimals, display) <==> at < display;
    } else {
      assert AllDigits(padded);
    }
  }
}
