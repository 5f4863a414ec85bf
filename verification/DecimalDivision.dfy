/**
 * Division of decimal strings. The quotient is exact precisely when it is a
 * finite decimal; otherwise it is truncated toward zero at the digit cap.
 */
module DecimalDivision {
  import opened Naturals
  import opened ScaledReals
  import opened Decimals
  import opened DecimalArithmetic

  // ------------------------------------------------------------ computation

  method ComputeGcd(a: nat, b: nat) returns (g: nat)
    ensures g == Gcd(a, b)
    ensures a + b > 0 ==> g > 0
  {
    var left, right := a, b;
    while right != 0
      invariant Gcd(left, right) == Gcd(a, b)
      decreases right
    {
      var remainder := left % right;
      left := right;
      right := remainder;
    }
    return left;
  }

  /** Divides out every factor `p`, counting them. */
  method ComputeStrip(n: nat, p: nat) returns (rest: nat, count: nat)
    requires n > 0 && p > 1
    ensures (rest, count) == Strip(n, p)
  {
    rest, count := n, 0;
    while rest % p == 0
      invariant rest > 0
      invariant Strip(n, p) == (Strip(rest, p).0, count + Strip(rest, p).1)
      decreases rest
    {
      StripDecreases(rest, p);
      rest := rest / p;
      count := count + 1;
    }
  }

  function Ratio(a: Parsed, b: Parsed): (r: (nat, nat))
    requires b.coefficient > 0
    ensures r.1 > 0
  {
    (a.coefficient * Pow10(b.scale), PositiveProduct(b.coefficient, Pow10(a.scale)))
  }

  function PositiveProduct(m: nat, n: nat): (p: nat)
    requires m > 0 && n > 0
    ensures p > 0
  {
    m * n
  }

  /** The quotient of two magnitudes in lowest terms. */
  function LowestTerms(n: nat, d: nat): (r: (nat, nat))
    requires d > 0
    ensures r.1 > 0
  {
    GcdQuotients(n, d);
    (n / Gcd(n, d), d / Gcd(n, d))
  }

  function QuotientSign(a: Parsed, b: Parsed): Sign {
    if a.sign == b.sign then Positive else Negative
  }

  /** The whole part of n/d shifted `scale` places. */
  function Shifted(n: nat, d: nat, scale: nat): nat
    requires d > 0
  {
    var shifted: nat := n * Pow10(scale);
    shifted / d
  }

  /** Which coefficient and scale are printed for n/d in lowest terms. */
  function Digits(n: nat, d: nat, cap: int): Result<(nat, nat)>
    requires d > 0
  {
    var (odd, twos) := Strip(d, 2);
    var (rest, fives) := Strip(odd, 5);
    if rest == 1 then
      var scale := Max(twos, fives);
      Ok((Shifted(n, d, scale), scale))
    else if cap < 0 then Err(InvalidExponent)
    else Ok((Shifted(n, d, cap), cap))
  }

  function DivideParsed(a: Parsed, b: Parsed, cap: int): Result<string>
    requires b.coefficient > 0
  {
    var (numerator, denominator) := Ratio(a, b);
    var (n, d) := LowestTerms(numerator, denominator);
    var (coefficient, scale) :- Digits(n, d, cap);
    Ok(Format(coefficient, scale, QuotientSign(a, b)))
  }

  function Divide(dividend: string, divisor: string, cap: int): Result<string> {
    var a :- Parse(dividend);
    var b :- Parse(divisor);
    if b.coefficient == 0 then Err(DivisionByZero)
    else DivideParsed(a, b, cap)
  }

  method DivideDecimals(dividend: string, divisor: string, maxFractionDigits: int) returns (r: Result<string>)
    ensures r == Divide(dividend, divisor, maxFractionDigits)
  {
    hide IsDecimalString, ParsedOf, Format, Shifted, Strip, Gcd, Pow10;
    var a :- Parse(dividend);
    var b :- Parse(divisor);
    if b.coefficient == 0 {
      return Err(DivisionByZero);
    }
    var sign := QuotientSign(a, b);
    var numerator := a.coefficient * Pow10(b.scale);
    var denominator := PositiveProduct(b.coefficient, Pow10(a.scale));
    var common := ComputeGcd(numerator, denominator);
    var lowest := LowestTerms(numerator, denominator);
    numerator := numerator / common;
    denominator := denominator / common;
    assert lowest == (numerator, denominator);

    var remainder, twos := ComputeStrip(denominator, 2);
    var rest, fives := ComputeStrip(remainder, 5);
    if rest == 1 {
      var scale := Max(twos, fives);
      return Ok(Format(Shifted(numerator, denominator, scale), scale, sign));
    }
    if maxFractionDigits < 0 {
      return Err(InvalidExponent);
    }
    return Ok(Format(Shifted(numerator, denominator, maxFractionDigits), maxFractionDigits, sign));
  }

  // ---------------------------------------------------------------- theory

  /** A number some decimal string denotes. */
  ghost predicate FiniteDecimal(x: real) {
    exists n: int, s: nat :: x == Scaled(n, s)
  }

  lemma CancelReal(x: real, y: real, k: real)
    requires k != 0.0 && x * k == y * k
    ensures x == y
  {
    assert (x - y) * k == 0.0;
  }

  lemma Regroup(x: real, y: real, z: real)
    ensures (x * y) * z == (x * z) * y
  {
  }

  lemma OrderReal(x: real, y: real, k: real)
    requires k > 0.0
    ensures x < y <==> x * k < y * k
    ensures x <= y <==> x * k <= y * k
  {
    assert (y - x) * k == y * k - x * k;
  }

  /** The quotient of the values, times the denominator, is the numerator. */
  lemma RatioValue(a: Parsed, b: Parsed, q: real)
    requires b.coefficient > 0
    requires q * Scaled(b.coefficient, b.scale) == Scaled(a.coefficient, a.scale)
    ensures var (n, d) := Ratio(a, b); q * d as real == n as real
  {
    var x, y := Scaled(a.coefficient, a.scale), Scaled(b.coefficient, b.scale);
    var s, t := Pow10(a.scale) as real, Pow10(b.scale) as real;
    ScaledTimesPower(a.coefficient, a.scale);
    ScaledTimesPower(b.coefficient, b.scale);
    CastProduct(a.coefficient, Pow10(b.scale));
    CastProduct(b.coefficient, Pow10(a.scale));
    RatioAlgebra(q, x, y, s, t);
  }

  lemma RatioAlgebra(q: real, x: real, y: real, s: real, t: real)
    requires q * y == x
    ensures q * ((y * t) * s) == (x * s) * t
  {
    calc {
      q * ((y * t) * s);
      { assert (y * t) * s == y * (s * t); }
      q * (y * (s * t));
      (q * y) * (s * t);
      x * (s * t);
      (x * s) * t;
    }
  }

  lemma CancelCommon(m: nat, e: nat, g: nat, n: nat, d: nat, q: real)
    requires g > 0 && n == m * g && d == e * g && q * d as real == n as real
    ensures q * e as real == m as real
  {
    CastProduct(m, g);
    CastProduct(e, g);
    Associate(q, e as real, g as real);
    CancelReal(q * e as real, m as real, g as real);
  }

  lemma LowestTermsValue(n: nat, d: nat, q: real)
    requires d > 0 && q * d as real == n as real
    ensures var (m, e) := LowestTerms(n, d); q * e as real == m as real
  {
    var g := Gcd(n, d);
    GcdQuotients(n, d);
    CancelCommon(n / g, d / g, g, n, d, q);
  }

  /** If n/d in lowest terms is a finite decimal, nothing but twos and fives is left in d. */
  lemma FiniteMeansTwosAndFives(n: nat, d: nat, x: int, y: int, m: int, s: nat)
    requires d > 0 && n * x + d * y == 1
    requires n * Pow10(s) == d * m
    ensures Strip(Strip(d, 2).0, 5).0 == 1
  {
    if m < 0 {
      MulStep(d, m, 0);
      assert false;
    }
    Gauss(n, d, Pow10(s), m, x, y);
    var k: nat :| Pow10(s) == d * k;
    var (odd, twos) := Strip(d, 2);
    var (rest, fives) := Strip(odd, 5);
    StripKeepsIndivisible(odd, 5, 2);
    LeftoverDivides(Pow(2, twos), Pow(5, fives), rest, k);
    CoprimeToTenDividesOne(rest, Pow(2, twos) * Pow(5, fives) * k, s);
  }

  lemma LeftoverDivides(p: nat, q: nat, rest: nat, k: nat)
    ensures rest * (p * q * k) == (p * (q * rest)) * k
  {
    calc {
      rest * (p * q * k);
      { MulAssoc(rest, p * q, k); }
      (rest * (p * q)) * k;
      { assert rest * (p * q) == (p * q) * rest; MulAssoc(p, q, rest); }
      (p * (q * rest)) * k;
    }
  }

  /** The converse: a denominator of twos and fives makes the printed coefficient exact. */
  lemma TwosAndFivesAreExact(n: nat, d: nat, q: real)
    requires d > 0 && q * d as real == n as real
    requires Strip(Strip(d, 2).0, 5).0 == 1
    ensures Digits(n, d, 0).Ok?
    ensures var (c, s) := Digits(n, d, 0).value; Scaled(c, s) == q
    ensures forall cap :: Digits(n, d, cap) == Digits(n, d, 0)
  {
    var (odd, twos) := Strip(d, 2);
    var fives := Strip(odd, 5).1;
    var s := Max(twos, fives);
    var k := TwosAndFivesDividePowerOfTen(twos, fives);
    assert Pow10(s) == d * k;
    var c := n * k;
    Interchange(n, d, k);
    ExactQuotient(n * Pow10(s), d, c);
    ExactAtScale(n, d, k, s, q);
  }

  lemma Interchange(n: nat, d: nat, k: nat)
    ensures n * (d * k) == d * (n * k)
  {
  }

  lemma ExactAtScale(n: nat, d: nat, k: nat, s: nat, q: real)
    requires q * d as real == n as real && Pow10(s) == d * k
    ensures Scaled(n * k, s) == q
  {
    hide Scaled, Pow10;
    ScaledTimesPower(n * k, s);
    CastProduct(n, k);
    CastProduct(d, k);
    Associate(q, d as real, k as real);
    assert Scaled(n * k, s) * Pow10(s) as real == q * Pow10(s) as real;
    CancelReal(Scaled(n * k, s), q, Pow10(s) as real);
  }

  /** Truncation: the printed coefficient is the whole part of the quotient shifted by the cap. */
  lemma TruncatedBelow(n: nat, d: nat, cap: nat, q: real)
    requires d > 0 && q * d as real == n as real
    ensures var c := Shifted(n, d, cap); Scaled(c, cap) <= q < Scaled(c, cap) + Scaled(1, cap)
  {
    var p := Pow10(cap);
    var c, r := Quotient(n * p, d);
    ShiftedQuotient(n, d, p, q);
    WholePart(n * p, d, c, r, q * p as real);
    BetweenSteps(c, cap, q);
  }

  lemma BetweenSteps(c: nat, cap: nat, q: real)
    requires c as real <= q * Pow10(cap) as real < (c + 1) as real
    ensures Scaled(c, cap) <= q < Scaled(c, cap) + Scaled(1, cap)
  {
    hide Scaled, Pow10;
    ScaledTimesPower(c, cap);
    ScaledTimesPower(c + 1, cap);
    ScaledAdd(c, 1, cap);
    Between(Scaled(c, cap), q, Scaled(c + 1, cap), Pow10(cap) as real, c as real);
  }

  lemma Between(x: real, q: real, y: real, p: real, c: real)
    requires p > 0.0 && x * p == c && y * p == c + 1.0 && c <= q * p < c + 1.0
    ensures x <= q < y
  {
    OrderReal(x, q, p);
    OrderReal(q, y, p);
  }

  lemma ShiftedQuotient(n: nat, d: nat, p: nat, q: real)
    requires q * d as real == n as real
    ensures (q * p as real) * d as real == (n * p) as real
  {
    CastProduct(n, p);
    Regroup(q, p as real, d as real);
  }

  lemma WholePart(n: nat, d: nat, c: nat, r: nat, x: real)
    requires d > 0 && n == d * c + r && r < d && x * d as real == n as real
    ensures c as real <= x < (c + 1) as real
  {
    CastProduct(c, d);
    assert c * d == d * c;
    Remainder(d as real, c as real, r as real, x);
  }

  lemma Remainder(d: real, c: real, r: real, x: real)
    requires d > 0.0 && 0.0 <= r < d && x * d == c * d + r
    ensures c <= x < c + 1.0
  {
    OrderReal(c, x, d);
    assert (c + 1.0) * d == c * d + d;
    OrderReal(x, c + 1.0, d);
  }

  // ---------------------------------------------------------------- results

  function Magnitude(x: real): real {
    if x < 0.0 then -x else x
  }

  /** What is printed for a magnitude q: q itself when it is finite, its truncation otherwise. */
  lemma DigitsOfQuotient(a: Parsed, b: Parsed, cap: int, q: real)
    requires b.coefficient > 0
    requires q * Scaled(b.coefficient, b.scale) == Scaled(a.coefficient, a.scale)
    ensures var (n, d) := LowestTerms(Ratio(a, b).0, Ratio(a, b).1);
            var digits := Digits(n, d, cap);
            && (FiniteDecimal(q) ==> digits.Ok? && Scaled(digits.value.0, digits.value.1) == q)
            && (!FiniteDecimal(q) && cap < 0 ==> digits == Err(InvalidExponent))
            && (!FiniteDecimal(q) && cap >= 0 ==>
                  && digits.Ok? && digits.value.1 == cap
                  && Scaled(digits.value.0, cap) <= q < Scaled(digits.value.0, cap) + Scaled(1, cap))
  {
    var (numerator, denominator) := Ratio(a, b);
    var (n, d) := LowestTerms(numerator, denominator);
    RatioValue(a, b, q);
    LowestTermsValue(numerator, denominator, q);
    if FiniteDecimal(q) {
      var m, s :| q == Scaled(m, s);
      var x, y := ReducedIsCoprime(numerator, denominator);
      FiniteCrossProduct(n, d, m, s, q);
      FiniteMeansTwosAndFives(n, d, x, y, m, s);
      TwosAndFivesAreExact(n, d, q);
    } else {
      if Strip(Strip(d, 2).0, 5).0 == 1 {
        TwosAndFivesAreExact(n, d, q);
        assert false;
      }
      if cap >= 0 {
        TruncatedBelow(n, d, cap, q);
      }
    }
  }

  lemma FiniteCrossProduct(n: nat, d: nat, m: int, s: nat, q: real)
    requires q * d as real == n as real && q == Scaled(m, s)
    ensures n * Pow10(s) == d * m
  {
    ScaledTimesPower(m, s);
    CastProduct(n, Pow10(s));
    CastProduct(d, m);
    Regroup(q, d as real, Pow10(s) as real);
  }

  ghost function Apply(sign: Sign, x: real): real {
    if sign == Negative then -x else x
  }

  lemma ScaledWithSign(sign: Sign, n: nat, scale: nat)
    ensures Scaled(WithSign(sign, n), scale) == Apply(sign, Scaled(n, scale))
    ensures Scaled(n, scale) >= 0.0
  {
    ScaledAdd(0, n, scale);
    ScaledSign(0, scale);
    ScaledSign(n, scale);
  }

  lemma FiniteNegation(x: real)
    ensures FiniteDecimal(x) <==> FiniteDecimal(-x)
  {
    forall n: int, s: nat
      ensures Scaled(-n, s) == -Scaled(n, s)
    {
      ScaledAdd(0, n, s);
      ScaledSign(0, s);
    }
    if FiniteDecimal(x) {
      var n, s :| x == Scaled(n, s);
      assert -x == Scaled(-n, s);
    }
    if FiniteDecimal(-x) {
      var n, s :| -x == Scaled(n, s);
      assert x == Scaled(-n, s);
    }
  }

  /** The quotient of two signed numbers is the signed quotient of their magnitudes. */
  lemma SignedQuotient(s: Sign, x: real, t: Sign, y: real, q: real)
    requires y > 0.0 && q * Apply(t, y) == Apply(s, x)
    ensures Apply(if s == t then Positive else Negative, q) * y == x
  {
    assert (-q) * y == -(q * y) && q * (-y) == -(q * y);
  }

  /** `printed` is q cut off after `digits` fractional digits, toward zero. */
  ghost predicate TruncatesTowardZero(printed: real, q: real, digits: nat) {
    && Magnitude(printed) <= Magnitude(q) < Magnitude(printed) + Scaled(1, digits)
    && (q >= 0.0 ==> printed >= 0.0)
    && (q <= 0.0 ==> printed <= 0.0)
  }

  ghost predicate DivisionSpec(r: Result<string>, q: real, cap: int) {
    && (FiniteDecimal(q) ==> r.Ok? && Canonical(r.value) && ValueOf(r.value) == q)
    && (!FiniteDecimal(q) && cap < 0 ==> r == Err(InvalidExponent))
    && (!FiniteDecimal(q) && cap >= 0 ==>
          && r.Ok? && Canonical(r.value)
          && ParsedOf(r.value).scale <= cap
          && ValueOf(r.value) != q
          && TruncatesTowardZero(ValueOf(r.value), q, cap))
  }

  lemma PrintedQuotient(coefficient: nat, scale: nat, sign: Sign)
    ensures var t := Format(coefficient, scale, sign);
            && Canonical(t) && ParsedOf(t).scale <= scale
            && ValueOf(t) == Apply(sign, Scaled(coefficient, scale))
            && FiniteDecimal(ValueOf(t))
            && Scaled(coefficient, scale) >= 0.0
  {
    hide Format, Canonical, Scaled;
    FormatValue(coefficient, scale, sign);
    FormatParses(coefficient, scale, sign);
    ScaledWithSign(sign, coefficient, scale);
  }

  lemma DivideParsedMeets(a: Parsed, b: Parsed, cap: int, q: real)
    requires b.coefficient > 0 && q * Value(b) == Value(a)
    ensures DivisionSpec(DivideParsed(a, b, cap), q, cap)
  {
    hide Format, Canonical, Scaled, Ratio, LowestTerms, Digits, FiniteDecimal, ParsedOf;
    var sign := QuotientSign(a, b);
    var m := Apply(sign, q);
    ScaledWithSign(a.sign, a.coefficient, a.scale);
    ScaledWithSign(b.sign, b.coefficient, b.scale);
    ScaledSign(b.coefficient, b.scale);
    SignedQuotient(a.sign, Scaled(a.coefficient, a.scale), b.sign, Scaled(b.coefficient, b.scale), q);
    MagnitudeNonNegative(Scaled(a.coefficient, a.scale), Scaled(b.coefficient, b.scale), m);
    FiniteNegation(q);
    DigitsOfQuotient(a, b, cap, m);
    var (n, d) := LowestTerms(Ratio(a, b).0, Ratio(a, b).1);
    var digits := Digits(n, d, cap);
    if digits.Ok? {
      PrintedQuotient(digits.value.0, digits.value.1, sign);
    }
  }

  lemma MagnitudeNonNegative(x: real, y: real, m: real)
    requires x >= 0.0 && y > 0.0 && m * y == x
    ensures m >= 0.0
  {
  }

  ghost function RealQuotient(x: real, y: real): (q: real)
    requires y != 0.0
    ensures q * y == x
    ensures x > 0.0 && y > 0.0 ==> q > 0.0
  {
    x / y
  }

  /** The mathematical quotient of two decimal strings. */
  ghost function QuotientOf(dividend: string, divisor: string): real
    requires IsDecimalString(dividend) && IsDecimalString(divisor) && !IsZero(divisor)
  {
    ZeroValue(divisor);
    RealQuotient(ValueOf(dividend), ValueOf(divisor))
  }

  lemma QuotientTimes(dividend: string, divisor: string)
    requires IsDecimalString(dividend) && IsDecimalString(divisor) && !IsZero(divisor)
    ensures ValueOf(divisor) != 0.0
    ensures QuotientOf(dividend, divisor) * ValueOf(divisor) == ValueOf(dividend)
    ensures ValueOf(dividend) > 0.0 && ValueOf(divisor) > 0.0 ==> QuotientOf(dividend, divisor) > 0.0
  {
    hide IsDecimalString, ValueOf, IsZero, RealQuotient, ParsedOf, Scaled;
    ZeroValue(divisor);
    var x, y := ValueOf(dividend), ValueOf(divisor);
    assert QuotientOf(dividend, divisor) == RealQuotient(x, y);
  }

  /**
   * Division is exact precisely when it can be. For every dividend, nonzero
   * divisor and digit cap: a quotient that is a finite decimal is returned
   * exactly, whatever the cap; any other quotient is truncated toward zero.
   */
  lemma DivisionIsExactWhenFinite(dividend: string, divisor: string, cap: int)
    requires IsDecimalString(dividend) && IsDecimalString(divisor) && !IsZero(divisor)
    ensures DivisionSpec(Divide(dividend, divisor, cap), QuotientOf(dividend, divisor), cap)
  {
    hide IsDecimalString, ParsedOf, Divide, Value, ValueOf, DivisionSpec, QuotientOf;
    QuotientTimes(dividend, divisor);
    DivideMeets(dividend, divisor, cap, QuotientOf(dividend, divisor));
  }

  lemma DivideMeets(dividend: string, divisor: string, cap: int, q: real)
    requires IsDecimalString(dividend) && IsDecimalString(divisor) && !IsZero(divisor)
    requires q * ValueOf(divisor) == ValueOf(dividend)
    ensures DivisionSpec(Divide(dividend, divisor, cap), q, cap)
  {
    hide IsDecimalString, ParsedOf, DivideParsed, Value, DivisionSpec;
    DivideParsedMeets(ParsedOf(dividend), ParsedOf(divisor), cap, q);
  }

  /** The error cases: malformed operands first, then a zero divisor. */
  lemma DivisionErrors(dividend: string, divisor: string, cap: int)
    ensures Divide(dividend, divisor, cap) == Err(InvalidDecimal)
       <==> !IsDecimalString(dividend) || !IsDecimalString(divisor)
    ensures Divide(dividend, divisor, cap) == Err(DivisionByZero)
       <==> IsDecimalString(dividend) && IsDecimalString(divisor) && IsZero(divisor)
  {
    hide IsDecimalString, ParsedOf, Ratio, LowestTerms, Format;
  }
}
