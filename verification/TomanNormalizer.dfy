/** Venue quotes turned into Toman prices and fixed-scale percentage changes. */
module TomanNormalizer {
  import opened Options
  import opened Naturals
  import opened ScaledReals
  import opened DigitStrings
  import opened JsText
  import opened Decimals
  import opened DecimalArithmetic
  import opened DecimalDivision

  const TOMAN_FRACTION_DIGITS := 8
  const PERCENTAGE_FRACTION_DIGITS := 4
  const RIAL_PER_TOMAN := "10"
  const TOMAN_PER_TOMAN := "1"

  /** A JSON value as a venue sends it; a finite number carries its default rendering. */
  datatype Raw = Text(text: string) | FiniteNumber(rendered: string) | NonFiniteNumber | Other

  datatype Price = Toman(text: string) | InvalidResponse | Thrown(error: Error)

  function DecimalString(value: Raw): Option<string> {
    match value
    case FiniteNumber(rendered) => if IsDecimalString(rendered) then Some(rendered) else None
    case Text(text) => if IsDecimalString(Trim(text)) then Some(Trim(text)) else None
    case _ => None
  }

  function ToTomanPrice(value: Raw, quotedPerToman: string): Price {
    var raw := DecimalString(value);
    if raw.None? || Compare(raw.value, "0") != Ok(1) then InvalidResponse
    else
      match Divide(raw.value, quotedPerToman, TOMAN_FRACTION_DIGITS)
      case Ok(text) => Toman(text)
      case Err(error) => Thrown(error)
  }

  /** The decimal between any white space of the text; a number's rendering as it is. */
  ghost predicate Holds(value: Raw, decimal: string) {
    match value
    case FiniteNumber(rendered) => rendered == decimal
    case Text(text) => exists before, after :: Blank(before) && Blank(after) && text == before + decimal + after
    case _ => false
  }

  /** A value is usable exactly if it is a number or a text that holds a decimal string, and then as that string. */
  lemma DecimalStringIff(value: Raw, decimal: string)
    ensures DecimalString(value) == Some(decimal) <==> Holds(value, decimal) && IsDecimalString(decimal)
  {
    hide IsDecimalString, Trim;
    if value.Text? {
      if DecimalString(value) == Some(decimal) {
        var before, after := TrimLeavesTheRest(value.text);
        assert value.text == before + decimal + after;
      }
      if Holds(value, decimal) && IsDecimalString(decimal) {
        var before, after :| Blank(before) && Blank(after) && value.text == before + decimal + after;
        NotBlankAround(decimal);
        TrimRemovesTheSpace(before, decimal, after);
      }
    }
  }

  lemma NotBlankAround(decimal: string)
    requires IsDecimalString(decimal)
    ensures decimal != "" && !IsSpace(decimal[0]) && !IsSpace(decimal[|decimal| - 1])
  {
    hide IsDecimalString;
    DecimalEnds(decimal);
  }

  lemma DecimalEnds(decimal: string)
    requires IsDecimalString(decimal)
    ensures decimal != ""
    ensures IsDigit(decimal[0]) || decimal[0] == '-'
    ensures IsDigit(decimal[|decimal| - 1])
  {
    var whole, fraction := IntegerPart(decimal), FractionPart(decimal);
    UnsignedParts(decimal);
    var digits := Unsigned(decimal);
    hide IntegerPart, FractionPart;
    assert digits[0] == whole[0];
    if fraction == "" {
      assert digits == whole + "";
    } else {
      assert digits[|digits| - 1] == fraction[|fraction| - 1];
    }
  }

  /** `text.slice(0, digits).padEnd(digits, '0')`. */
  function FixedPlaces(fraction: string, digits: nat): (t: string)
    ensures |t| == digits
    ensures AllDigits(fraction) ==> AllDigits(t)
  {
    if |fraction| >= digits then fraction[..digits] else fraction + Zeros(digits - |fraction|)
  }

  function Quantize(value: string, digits: nat): string
    requires IsDecimalString(value)
  {
    var integer := IntegerPart(value);
    var places := FixedPlaces(FractionPart(value), digits);
    var rendered := if digits == 0 then integer else integer + "." + places;
    var isZero := AllZeros(integer) && AllZeros(places);
    if HasMinus(value) && !isZero then "-" + rendered else rendered
  }

  function ToPercentageChange(value: Raw): string {
    var raw := DecimalString(value);
    ZeroIsDecimal();
    Quantize(if raw.None? then "0" else raw.value, PERCENTAGE_FRACTION_DIGITS)
  }

  lemma ZeroIsDecimal()
    ensures IsDecimalString("0") && !HasMinus("0") && ValueOf("0") == 0.0 && Canonical("0")
  {
    SpellZero();
    SpellParts("", "0", "");
    ScaledSign(0, 0);
  }

  // --------------------------------------------------------------- quantize

  lemma QuantizeSpells(value: string, digits: nat)
    requires IsDecimalString(value)
    ensures var integer, places := IntegerPart(value), FixedPlaces(FractionPart(value), digits);
            var minus := if HasMinus(value) && !(AllZeros(integer) && AllZeros(places)) then "-" else "";
            Quantize(value, digits) == Spell(minus, integer, places)
  {
    hide IsDecimalString, IntegerPart, FractionPart;
    var integer, places := IntegerPart(value), FixedPlaces(FractionPart(value), digits);
    if digits == 0 {
      assert places == "" && integer + "" == integer;
      assert "" + integer == integer;
    } else {
      assert integer + "." + places == integer + ("." + places);
      assert "" + (integer + ("." + places)) == integer + ("." + places);
    }
  }

  /** The parts of a quantized value: same integer part, exactly `digits` places, no negative zero. */
  lemma QuantizeParts(value: string, digits: nat)
    requires IsDecimalString(value)
    ensures var t := Quantize(value, digits);
            && IsDecimalString(t)
            && IntegerPart(t) == IntegerPart(value)
            && FractionPart(t) == FixedPlaces(FractionPart(value), digits)
            && ParsedOf(t).scale == digits
            && (HasMinus(t) <==> HasMinus(value) && !IsZero(t))
  {
    var integer, places := IntegerPart(value), FixedPlaces(FractionPart(value), digits);
    var minus := if HasMinus(value) && !(AllZeros(integer) && AllZeros(places)) then "-" else "";
    QuantizeSpells(value, digits);
    SpellParts(minus, integer, places);
    hide IsDecimalString, IntegerPart, FractionPart, Quantize, Spell;
    AllZerosToNat(integer + places);
    AllZerosConcat(integer, places);
  }

  lemma AllZerosConcat(a: string, b: string)
    ensures AllZeros(a + b) <==> AllZeros(a) && AllZeros(b)
  {
    if AllZeros(a + b) {
      assert forall i :: 0 <= i < |a| ==> a[i] == (a + b)[i];
      assert forall i :: 0 <= i < |b| ==> b[i] == (a + b)[|a| + i];
    }
  }

  lemma SplitAt(integer: string, fraction: string, digits: nat)
    requires AllDigits(integer) && AllDigits(fraction) && digits <= |fraction|
    ensures AllDigits(integer + fraction) && AllDigits(integer + fraction[..digits])
    ensures var k := |fraction| - digits;
            var kept := ToNat(integer + fraction[..digits]);
            kept * Pow10(k) <= ToNat(integer + fraction) < (kept + 1) * Pow10(k)
  {
    var head, tail := integer + fraction[..digits], fraction[digits..];
    assert integer + fraction == head + tail;
    ToNatConcat(head, tail);
    ToNatBound(tail);
    hide ToNat, Pow10;
    Bracket(ToNat(head), Pow10(|tail|), ToNat(tail));
  }

  lemma Bracket(kept: nat, p: nat, rest: nat)
    requires rest < p
    ensures kept * p <= kept * p + rest < (kept + 1) * p
  {
  }

  lemma PadAt(integer: string, fraction: string, digits: nat)
    requires AllDigits(integer) && AllDigits(fraction) && digits > |fraction|
    ensures AllDigits(integer + fraction) && AllDigits(integer + FixedPlaces(fraction, digits))
    ensures ToNat(integer + FixedPlaces(fraction, digits)) == ToNat(integer + fraction) * Pow10(digits - |fraction|)
  {
    var zeros := Zeros(digits - |fraction|);
    assert integer + FixedPlaces(fraction, digits) == (integer + fraction) + zeros;
    ToNatConcat(integer + fraction, zeros);
    ZerosToNat(|zeros|);
  }

  /** Coefficients cut at a smaller scale bracket the number. */
  lemma CutBrackets(c: nat, s: nat, kept: nat, digits: nat)
    requires digits <= s
    requires kept * Pow10(s - digits) <= c < (kept + 1) * Pow10(s - digits)
    ensures Scaled(kept, digits) <= Scaled(c, s) < Scaled(kept, digits) + Scaled(1, digits)
  {
    hide Scaled, Pow10;
    var k := s - digits;
    ScaledShift(kept, digits, k);
    ScaledShift(kept + 1, digits, k);
    ScaledAdd(kept, 1, digits);
    ScaledOrder(kept * Pow10(k), c, s);
    ScaledOrder(c, kept * Pow10(k), s);
    ScaledOrder(c, (kept + 1) * Pow10(k), s);
  }

  /** Cutting or padding the fraction at `digits` places brackets the number, and keeps it when nothing is cut. */
  lemma FixedPlacesMagnitude(integer: string, fraction: string, digits: nat)
    requires AllDigits(integer) && AllDigits(fraction)
    ensures AllDigits(integer + fraction) && AllDigits(integer + FixedPlaces(fraction, digits))
    ensures var x := Scaled(ToNat(integer + fraction), |fraction|);
            var y := Scaled(ToNat(integer + FixedPlaces(fraction, digits)), digits);
            y <= x < y + Scaled(1, digits)
  {
    hide Scaled, Pow10, ToNat, AllDigits;
    ScaledSign(1, digits);
    if |fraction| >= digits {
      SplitAt(integer, fraction, digits);
      CutBrackets(ToNat(integer + fraction), |fraction|, ToNat(integer + fraction[..digits]), digits);
    } else {
      PadAt(integer, fraction, digits);
      ScaledShift(ToNat(integer + fraction), |fraction|, digits - |fraction|);
    }
  }

  lemma QuantizedMagnitude(value: string, digits: nat)
    requires IsDecimalString(value)
    ensures var t := Quantize(value, digits);
            && IsDecimalString(t)
            && var c, d := ParsedOf(value), ParsedOf(t);
            && d.scale == digits
            && Scaled(d.coefficient, digits) <= Scaled(c.coefficient, c.scale)
                 < Scaled(d.coefficient, digits) + Scaled(1, digits)
  {
    QuantizeParts(value, digits);
    FixedPlacesMagnitude(IntegerPart(value), FractionPart(value), digits);
    hide IntegerPart, FractionPart, Quantize, Scaled, FixedPlaces;
  }

  /** Quantizing truncates toward zero at exactly the asked scale and never yields a negative zero. */
  lemma QuantizeTruncates(value: string, digits: nat)
    requires IsDecimalString(value)
    ensures var t := Quantize(value, digits);
            && IsDecimalString(t)
            && ParsedOf(t).scale == digits
            && TruncatesTowardZero(ValueOf(t), ValueOf(value), digits)
            && (HasMinus(t) ==> !IsZero(t))
  {
    QuantizeParts(value, digits);
    QuantizedMagnitude(value, digits);
    var c, d := ParsedOf(value), ParsedOf(Quantize(value, digits));
    hide IsDecimalString, IntegerPart, FractionPart, Quantize, Scaled;
    ScaledWithSign(c.sign, c.coefficient, c.scale);
    ScaledWithSign(d.sign, d.coefficient, d.scale);
    ScaledSign(d.coefficient, d.scale);
  }

  lemma QuantizeIdempotent(value: string, digits: nat)
    requires IsDecimalString(value)
    ensures IsDecimalString(Quantize(value, digits))
    ensures Quantize(Quantize(value, digits), digits) == Quantize(value, digits)
  {
    var t := Quantize(value, digits);
    QuantizeParts(value, digits);
    QuantizeParts(t, digits);
    var places := FractionPart(t);
    assert FixedPlaces(places, digits) == places by {
      assert places[..digits] == places;
    }
    SameParts(Quantize(t, digits), t);
  }

  lemma SameParts(t: string, u: string)
    requires IsDecimalString(t) && IsDecimalString(u)
    requires IntegerPart(t) == IntegerPart(u) && FractionPart(t) == FractionPart(u) && HasMinus(t) == HasMinus(u)
    ensures t == u
  {
    PartsSpell(t);
    PartsSpell(u);
  }

  /** Every 24h change is rendered with four places; an unusable one is rendered as zero. */
  lemma PercentageChangeIsFixedScale(value: Raw)
    ensures var t := ToPercentageChange(value);
            && IsDecimalString(t)
            && ParsedOf(t).scale == 4
            && match DecimalString(value)
               case None => ValueOf(t) == 0.0
               case Some(raw) => IsDecimalString(raw) && TruncatesTowardZero(ValueOf(t), ValueOf(raw), 4)
  {
    ZeroIsDecimal();
    hide IsDecimalString, Quantize, ParsedOf, ValueOf;
    match DecimalString(value)
    case None =>
      QuantizeTruncates("0", 4);
    case Some(raw) =>
      QuantizeTruncates(raw, 4);
  }

  // ------------------------------------------------------------------ price

  predicate PositiveQuote(value: Raw) {
    DecimalString(value).Some? && Compare(DecimalString(value).value, "0") == Ok(1)
  }

  lemma PositiveQuoteMeans(value: Raw)
    ensures PositiveQuote(value) <==>
              && DecimalString(value).Some?
              && IsDecimalString(DecimalString(value).value)
              && ValueOf(DecimalString(value).value) > 0.0
  {
    ZeroIsDecimal();
    hide Compare, ValueOf, Trim;
    if DecimalString(value).Some? {
      var raw := DecimalString(value).value;
      CompareByValue(raw, "0");
      ZeroValue(raw);
    }
  }

  /** A positive decimal whose digits are a product of twos and fives, such as "10", "1" or "2.5". */
  predicate TwosAndFives(divisor: string) {
    && NonNegative(divisor)
    && ParsedOf(divisor).coefficient > 0
    && Strip(Strip(ParsedOf(divisor).coefficient, 2).0, 5).0 == 1
  }

  lemma QuotientByTwosAndFives(n: int, s: nat, c: nat, t: nat) returns (m: int, u: nat)
    requires c > 0 && Strip(Strip(c, 2).0, 5).0 == 1
    ensures Scaled(m, u) * Scaled(c, t) == Scaled(n, s)
  {
    var (odd, twos) := Strip(c, 2);
    var (rest, fives) := Strip(odd, 5);
    var k := TwosAndFivesDividePowerOfTen(twos, fives);
    var e := Max(twos, fives);
    assert c * k == Pow10(e);
    m, u := n * (k * Pow10(t)), s + e;
    ScaledMul(m, u, c, t);
    Collect(n, k, Pow10(t), c);
    Pow10Add(e, t);
    ScaledShift(n, s, e + t);
  }

  lemma Collect(n: int, k: int, p: int, c: int)
    ensures (n * (k * p)) * c == n * ((c * k) * p)
  {
    calc {
      (n * (k * p)) * c;
      { MulAssoc(n, k * p, c); }
      n * ((k * p) * c);
      { assert (k * p) * c == c * (k * p); MulAssoc(c, k, p); }
      n * ((c * k) * p);
    }
  }

  lemma FiniteQuotient(x: real, y: real, m: int, u: nat, q: real)
    requires y > 0.0 && Scaled(m, u) * y == x && q * y == x
    ensures FiniteDecimal(q)
  {
    hide Scaled;
    CancelReal(Scaled(m, u), q, y);
  }

  lemma ParsedDividesFinitely(a: Parsed, b: Parsed, q: real)
    requires b.sign == Positive && b.coefficient > 0
    requires Strip(Strip(b.coefficient, 2).0, 5).0 == 1
    requires q * Value(b) == Value(a)
    ensures FiniteDecimal(q)
  {
    hide Scaled, Strip, FiniteDecimal;
    ScaledSign(b.coefficient, b.scale);
    var m, u := QuotientByTwosAndFives(Signed(a), a.scale, b.coefficient, b.scale);
    FiniteQuotient(Value(a), Value(b), m, u, q);
  }

  lemma DividesFinitely(raw: string, divisor: string)
    requires IsDecimalString(raw) && TwosAndFives(divisor)
    ensures FiniteDecimal(QuotientOf(raw, divisor))
  {
    hide IsDecimalString, Value, FiniteDecimal, Strip, QuotientOf;
    QuotientTimes(raw, divisor);
    ParsedDividesFinitely(ParsedOf(raw), ParsedOf(divisor), QuotientOf(raw, divisor));
  }

  /**
   * A positive quote over a divisor made of twos and fives gives a strictly
   * positive price, and multiplying back returns the quote in canonical form.
   */
  lemma TomanConversionIsExact(value: Raw, divisor: string)
    requires PositiveQuote(value) && TwosAndFives(divisor)
    ensures ToTomanPrice(value, divisor).Toman?
    ensures var price := ToTomanPrice(value, divisor).text;
            && Canonical(price) && NonNegative(price) && ValueOf(price) > 0.0
            && IsDecimalString(DecimalString(value).value)
            && Multiply(price, divisor) == Ok(Normalize(DecimalString(value).value))
  {
    hide IsDecimalString, ParsedOf, Divide, Multiply, Normalize, ValueOf;
    hide FiniteDecimal, QuotientOf, Canonical, Compare, DecimalString;
    PositiveQuoteMeans(value);
    var raw := DecimalString(value).value;
    DividesFinitely(raw, divisor);
    PositiveDivisor(divisor);
    ConversionIsExact(raw, divisor);
  }

  lemma PositiveDivisor(divisor: string)
    requires NonNegative(divisor) && !IsZero(divisor)
    ensures ValueOf(divisor) > 0.0
  {
    ZeroValue(divisor);
  }

  lemma PositiveQuotient(raw: string, divisor: string)
    requires IsDecimalString(raw) && IsDecimalString(divisor) && ValueOf(raw) > 0.0 && ValueOf(divisor) > 0.0
    ensures !IsZero(divisor) && NonNegative(divisor) && QuotientOf(raw, divisor) > 0.0
  {
    ZeroValue(divisor);
    hide IsDecimalString, ValueOf, QuotientOf;
    QuotientTimes(raw, divisor);
  }

  lemma ConversionIsExact(raw: string, divisor: string)
    requires IsDecimalString(raw) && ValueOf(raw) > 0.0
    requires IsDecimalString(divisor) && !IsZero(divisor) && ValueOf(divisor) > 0.0
    requires FiniteDecimal(QuotientOf(raw, divisor))
    ensures var r := Divide(raw, divisor, TOMAN_FRACTION_DIGITS);
            && r.Ok? && Canonical(r.value) && NonNegative(r.value) && ValueOf(r.value) > 0.0
            && Multiply(r.value, divisor) == Ok(Normalize(raw))
  {
    hide IsDecimalString, ParsedOf, Divide, Multiply, Normalize, ValueOf, FiniteDecimal, DivisionSpec, QuotientOf;
    DivisionIsExactWhenFinite(raw, divisor, TOMAN_FRACTION_DIGITS);
    PositiveQuotient(raw, divisor);
    QuotientTimes(raw, divisor);
    ExactConversion(Divide(raw, divisor, TOMAN_FRACTION_DIGITS), raw, divisor, QuotientOf(raw, divisor));
  }

  lemma ExactConversion(r: Result<string>, raw: string, divisor: string, q: real)
    requires IsDecimalString(raw) && NonNegative(divisor)
    requires q > 0.0 && q * ValueOf(divisor) == ValueOf(raw)
    requires FiniteDecimal(q) && DivisionSpec(r, q, TOMAN_FRACTION_DIGITS)
    ensures r.Ok? && Canonical(r.value) && NonNegative(r.value) && ValueOf(r.value) > 0.0
    ensures Multiply(r.value, divisor) == Ok(Normalize(raw))
  {
    hide IsDecimalString, ParsedOf, Multiply, Normalize, ValueOf, FiniteDecimal;
    MultiplyingBack(raw, divisor, r.value);
  }

  lemma MultiplyingBack(raw: string, divisor: string, price: string)
    requires IsDecimalString(raw) && NonNegative(divisor) && Canonical(price) && ValueOf(price) > 0.0
    requires ValueOf(price) * ValueOf(divisor) == ValueOf(raw)
    ensures NonNegative(price) && Multiply(price, divisor) == Ok(Normalize(raw))
  {
    hide IsDecimalString, ParsedOf, Multiply, Normalize, ValueOf;
    ZeroValue(price);
    MultiplyExact(price, divisor);
    NormalizeIsCanonical(raw);
    EqualTextIffEqualValue(Multiply(price, divisor).value, Normalize(raw));
  }

  lemma IntegerText(whole: string)
    requires AllDigits(whole) && whole != ""
    ensures NonNegative(whole) && ParsedOf(whole) == Parsed(Positive, ToNat(whole), 0)
  {
    SpellParts("", whole, "");
    assert whole + "" == whole;
    assert Spell("", whole, "") == whole;
  }

  lemma StripSmall()
    ensures Strip(10, 2).0 == 5 && Strip(5, 5).0 == 1
    ensures Strip(1, 2).0 == 1 && Strip(1, 5).0 == 1
  {
    assert Strip(5, 2) == (5, 0);
    assert Strip(1, 5) == (1, 0);
  }

  /** The divisors in use are of that form. */
  lemma ConfiguredDivisors()
    ensures TwosAndFives(RIAL_PER_TOMAN) && TwosAndFives(TOMAN_PER_TOMAN)
    ensures ValueOf(RIAL_PER_TOMAN) == 10.0 && ValueOf(TOMAN_PER_TOMAN) == 1.0
  {
    assert ToNat("1") == 1 by { assert "1"[..0] == ""; }
    assert ToNat("10") == 10 by { assert "10"[..1] == "1"; }
    hide ToNat, IsDecimalString, ParsedOf;
    IntegerText("10");
    IntegerText("1");
    StripSmall();
    hide Strip;
  }

  /**
   * For any positive divisor: the printed price is positive exactly when the
   * quotient is a finite decimal or reaches the last printed place.
   */
  lemma PriceIsPositiveIff(value: Raw, divisor: string)
    requires PositiveQuote(value) && IsDecimalString(divisor) && ValueOf(divisor) > 0.0
    ensures IsDecimalString(DecimalString(value).value) && !IsZero(divisor)
    ensures var q := QuotientOf(DecimalString(value).value, divisor);
            var price := ToTomanPrice(value, divisor);
            && price.Toman? && Canonical(price.text)
            && (ValueOf(price.text) > 0.0 <==> FiniteDecimal(q) || q >= Scaled(1, TOMAN_FRACTION_DIGITS))
            && (price.text == "0" <==> !FiniteDecimal(q) && q < Scaled(1, TOMAN_FRACTION_DIGITS))
  {
    PositiveQuoteMeans(value);
    var raw := DecimalString(value).value;
    hide IsDecimalString, ParsedOf, Divide, ValueOf, FiniteDecimal, Scaled, DivisionSpec, Canonical, QuotientOf;
    PositiveQuotient(raw, divisor);
    DivisionIsExactWhenFinite(raw, divisor, TOMAN_FRACTION_DIGITS);
    PrintedPositiveIff(Divide(raw, divisor, TOMAN_FRACTION_DIGITS), QuotientOf(raw, divisor), TOMAN_FRACTION_DIGITS);
  }

  lemma PrintedPositiveIff(r: Result<string>, q: real, digits: nat)
    requires q > 0.0 && DivisionSpec(r, q, digits)
    ensures r.Ok? && Canonical(r.value)
    ensures ValueOf(r.value) > 0.0 <==> FiniteDecimal(q) || q >= Scaled(1, digits)
    ensures r.value == "0" <==> !FiniteDecimal(q) && q < Scaled(1, digits)
  {
    ZeroIsDecimal();
    hide IsDecimalString, ParsedOf, ValueOf, FiniteDecimal, Scaled, TruncatesTowardZero;
    if !FiniteDecimal(q) {
      TruncatedToZero(r.value, q, digits);
    }
    EqualTextIffEqualValue(r.value, "0");
  }

  lemma TruncatedToZero(t: string, q: real, digits: nat)
    requires IsDecimalString(t) && ParsedOf(t).scale <= digits
    requires q > 0.0 && TruncatesTowardZero(ValueOf(t), q, digits)
    ensures ValueOf(t) >= 0.0
    ensures ValueOf(t) > 0.0 <==> q >= Scaled(1, digits)
  {
    var p := ParsedOf(t);
    hide IsDecimalString, ParsedOf, Scaled;
    Rescale(p, digits);
    ScaledSign(1, digits);
    var n := Signed(p) * Pow10(digits - p.scale);
    ScaledSign(n, digits);
    ScaledOrder(n, 1, digits);
  }

  /** A conversion throws, rather than rejecting the quote, exactly on a positive quote with an unusable divisor. */
  lemma ConversionThrowsIff(value: Raw, divisor: string)
    ensures ToTomanPrice(value, divisor).Thrown? <==>
              PositiveQuote(value) && (!IsDecimalString(divisor) || IsZero(divisor))
    ensures ToTomanPrice(value, divisor).InvalidResponse? <==> !PositiveQuote(value)
  {
    hide IsDecimalString, Divide, DivisionSpec, FiniteDecimal, QuotientOf, Compare;
    if PositiveQuote(value) {
      var raw := DecimalString(value).value;
      PositiveQuoteMeans(value);
      DivisionErrors(raw, divisor, TOMAN_FRACTION_DIGITS);
      if IsDecimalString(divisor) && !IsZero(divisor) { DivisionGives(raw, divisor); }
    }
  }

  lemma DivisionGives(raw: string, divisor: string)
    requires IsDecimalString(raw) && IsDecimalString(divisor) && !IsZero(divisor)
    ensures Divide(raw, divisor, TOMAN_FRACTION_DIGITS).Ok?
  {
    hide IsDecimalString, Divide, FiniteDecimal, QuotientOf, Canonical, ValueOf, ParsedOf, IsZero;
    DivisionIsExactWhenFinite(raw, divisor, TOMAN_FRACTION_DIGITS);
  }

  // ------------------------------------------------- a price that prints as zero

  const TINY_QUOTE := "0.00000001"

  lemma {:induction false} PowerOfTenModThree(s: nat)
    ensures Pow10(s) % 3 == 1
  {
    if s > 0 {
      PowerOfTenModThree(s - 1);
      assert Pow10(s) == 9 * Pow10(s - 1) + Pow10(s - 1);
      NineTimes(Pow10(s - 1));
    }
  }

  lemma NineTimes(p: nat)
    requires p % 3 == 1
    ensures (9 * p + p) % 3 == 1
  {
    assert 9 * p + p == 3 * (3 * p) + p;
  }

  /** A third of a power of ten's reciprocal does not terminate. */
  lemma ThirdIsNotFinite(q: real)
    requires q * 3.0 == Scaled(1, 8)
    ensures !FiniteDecimal(q)
  {
    hide Scaled, Pow10;
    if n: int, s: nat :| q == Scaled(n, s) {
      ScaledTimesPower(1, 8);
      CastProduct(3, Pow10(8));
      Associate(q, 3.0, Pow10(8) as real);
      FiniteCrossProduct(1, 3 * Pow10(8), n, s, q);
      PowerOfTenModThree(s);
      MultipleOfThree(Pow10(8), n);
      assert false;
    }
  }

  lemma MultipleOfThree(p: int, n: int)
    ensures 3 * p * n % 3 == 0
  {
    assert 3 * p * n == 3 * (p * n);
  }

  lemma TinyQuoteParses()
    ensures IsDecimalString(TINY_QUOTE) && ParsedOf(TINY_QUOTE) == Parsed(Positive, 1, 8)
    ensures DecimalString(Text(TINY_QUOTE)) == Some(TINY_QUOTE)
  {
    hide IsDecimalString, ToNat, IntegerPart, FractionPart, Trim;
    TinyDigits();
    SpellParts("", "0", "00000001");
    assert Spell("", "0", "00000001") == TINY_QUOTE;
    NothingToTrim(TINY_QUOTE);
  }

  lemma TinyDigits()
    ensures AllDigits("00000001") && AllDigits("0" + "00000001") && ToNat("0" + "00000001") == 1
  {
    hide ToNat;
    assert "0" + "00000001" == Zeros(8) + "1";
    ZerosToNat(8);
    ToNatConcat(Zeros(8), "1");
    OneToNat();
  }

  lemma OneToNat()
    ensures ToNat("1") == 1
  {
    assert "1"[..0] == "";
  }

  lemma ThreeParses()
    ensures NonNegative("3") && ParsedOf("3") == Parsed(Positive, 3, 0)
  {
    assert ToNat("3") == 3 by { assert "3"[..0] == ""; }
    IntegerText("3");
  }

  /** With 3 Rial per Toman, which the configuration admits, the smallest quote is a positive price printed as zero. */
  lemma PositiveQuoteCanPrintZero()
    ensures PositiveQuote(Text(TINY_QUOTE)) && IsDecimalString("3") && ValueOf("3") == 3.0
    ensures ToTomanPrice(Text(TINY_QUOTE), "3") == Toman("0")
  {
    TinyQuoteParses();
    ThreeParses();
    ScaledSign(1, 8);
    hide IsDecimalString, ParsedOf, ToTomanPrice, DecimalString, QuotientOf, Compare;
    assert ValueOf(TINY_QUOTE) == Scaled(1, 8) && ValueOf("3") == 3.0 by { hide FiniteDecimal; }
    PositiveQuoteMeans(Text(TINY_QUOTE));
    PriceIsPositiveIff(Text(TINY_QUOTE), "3");
    QuotientTimes(TINY_QUOTE, "3");
    ThirdIsNotFinite(QuotientOf(TINY_QUOTE, "3"));
  }
}
