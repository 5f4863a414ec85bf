/**
 * Exact arithmetic on decimal strings. A string denotes a rational number
 * (`ValueOf`); every operation is proved to return the canonical spelling of
 * the mathematically exact result.
 */
module Decimals {
  import opened Naturals
  import opened ScaledReals
  import opened DigitStrings

  datatype Error = InvalidDecimal | NegativeOperand | EmptyList | DivisionByZero | InvalidExponent

  /** A returned value, or the error the source throws. */
  datatype Result<+T> = Ok(value: T) | Err(error: Error) {
    predicate IsFailure() {
      Err?
    }

    function PropagateFailure<U>(): Result<U>
      requires Err?
    {
      Err(error)
    }

    function Extract(): T
      requires Ok?
    {
      value
    }
  }

  datatype Sign = Positive | Negative

  datatype Parsed = Parsed(sign: Sign, coefficient: nat, scale: nat)

  // ---------------------------------------------------------------- parsing

  predicate HasMinus(text: string) {
    text != "" && text[0] == '-'
  }

  /** The text without its leading minus sign. */
  function Unsigned(text: string): string {
    if HasMinus(text) then text[1..] else text
  }

  /** Position of the first dot, or the length when there is none. */
  function Dot(text: string): (i: nat)
    ensures i <= |text|
    ensures forall k :: 0 <= k < i ==> text[k] != '.'
    ensures i < |text| ==> text[i] == '.'
  {
    if text == "" || text[0] == '.' then 0 else 1 + Dot(text[1..])
  }

  function IntegerPart(text: string): string {
    Unsigned(text)[..Dot(Unsigned(text))]
  }

  function FractionPart(text: string): string {
    var digits := Unsigned(text);
    if Dot(digits) == |digits| then "" else digits[Dot(digits) + 1..]
  }

  /** An optional minus, digits, and optionally a dot followed by digits. */
  predicate IsDecimalString(text: string) {
    var digits := Unsigned(text);
    && IntegerPart(text) != ""
    && AllDigits(IntegerPart(text))
    && AllDigits(FractionPart(text))
    && (Dot(digits) < |digits| ==> FractionPart(text) != "")
  }

  /** The grammar written as concatenation, independent of how the parser finds the dot. */
  ghost predicate MatchesGrammar(text: string) {
    exists minus, whole, fraction ::
      && IsMinus(minus)
      && AllDigits(whole) && whole != ""
      && AllDigits(fraction)
      && text == Spell(minus, whole, fraction)
  }

  predicate IsMinus(text: string) {
    text == "" || text == "-"
  }

  function DotAndFraction(fraction: string): string {
    if fraction == "" then "" else "." + fraction
  }

  function Spell(minus: string, whole: string, fraction: string): string {
    minus + (whole + DotAndFraction(fraction))
  }

  lemma {:induction false} DotAt(whole: string, rest: string)
    requires AllDigits(whole) && (rest == "" || rest[0] == '.')
    ensures Dot(whole + rest) == |whole|
  {
    if whole == "" {
      assert whole + rest == rest;
    } else {
      DotAt(whole[1..], rest);
      assert (whole + rest)[1..] == whole[1..] + rest;
      assert (whole + rest)[0] == whole[0];
    }
  }

  lemma SpellSign(minus: string, whole: string, fraction: string)
    requires IsMinus(minus) && AllDigits(whole) && whole != ""
    ensures HasMinus(Spell(minus, whole, fraction)) == (minus == "-")
    ensures Unsigned(Spell(minus, whole, fraction)) == whole + DotAndFraction(fraction)
  {
    var digits := whole + DotAndFraction(fraction);
    assert digits[0] == whole[0];
    if minus == "" {
      assert Spell(minus, whole, fraction) == digits;
    } else {
      assert Spell(minus, whole, fraction)[1..] == digits;
    }
  }

  /** Reading back the three parts of a spelled decimal. */
  lemma SpellParts(minus: string, whole: string, fraction: string)
    requires IsMinus(minus)
    requires AllDigits(whole) && whole != "" && AllDigits(fraction)
    ensures var t := Spell(minus, whole, fraction);
            && IsDecimalString(t)
            && HasMinus(t) == (minus == "-")
            && IntegerPart(t) == whole
            && FractionPart(t) == fraction
  {
    SpellSign(minus, whole, fraction);
    DotAt(whole, DotAndFraction(fraction));
    PartsOf(Spell(minus, whole, fraction), whole, fraction);
  }

  lemma PartsOf(text: string, whole: string, fraction: string)
    requires Unsigned(text) == whole + DotAndFraction(fraction)
    requires Dot(Unsigned(text)) == |whole|
    ensures IntegerPart(text) == whole && FractionPart(text) == fraction
  {
    hide Dot, Unsigned;
    var digits := Unsigned(text);
    assert digits[..|whole|] == whole;
    if fraction != "" {
      assert digits[|whole| + 1..] == fraction;
    }
  }

  lemma UnsignedParts(text: string)
    requires IsDecimalString(text)
    ensures Unsigned(text) == IntegerPart(text) + DotAndFraction(FractionPart(text))
  {
    var digits := Unsigned(text);
    var d := Dot(digits);
    if d < |digits| {
      assert digits == digits[..d] + ("." + digits[d + 1..]);
    } else {
      assert digits == digits[..d] + "";
    }
  }

  lemma PartsSpell(text: string)
    requires IsDecimalString(text)
    ensures text == Spell(if HasMinus(text) then "-" else "", IntegerPart(text), FractionPart(text))
  {
    hide IntegerPart, FractionPart, IsDecimalString, DotAndFraction;
    UnsignedParts(text);
    var minus := if HasMinus(text) then "-" else "";
    assert text == minus + Unsigned(text);
  }

  /** The parser accepts exactly the grammar. */
  lemma AcceptsExactlyTheGrammar(text: string)
    ensures IsDecimalString(text) <==> MatchesGrammar(text)
  {
    if IsDecimalString(text) {
      PartsSpell(text);
      var minus := if HasMinus(text) then "-" else "";
      assert IsMinus(minus);
      assert text == Spell(minus, IntegerPart(text), FractionPart(text));
    }
    if MatchesGrammar(text) {
      var minus, whole, fraction :|
        && IsMinus(minus)
        && AllDigits(whole) && whole != ""
        && AllDigits(fraction)
        && text == Spell(minus, whole, fraction);
      SpellParts(minus, whole, fraction);
    }
  }

  function ParsedOf(text: string): Parsed
    requires IsDecimalString(text)
  {
    assert AllDigits(IntegerPart(text) + FractionPart(text));
    Parsed(
      if HasMinus(text) then Negative else Positive,
      ToNat(IntegerPart(text) + FractionPart(text)),
      |FractionPart(text)|)
  }

  function Parse(text: string): Result<Parsed> {
    if IsDecimalString(text) then Ok(ParsedOf(text)) else Err(InvalidDecimal)
  }

  // ----------------------------------------------------------------- values

  function WithSign(sign: Sign, magnitude: nat): int {
    if sign == Negative then 0 - magnitude else magnitude
  }

  function Signed(p: Parsed): int {
    WithSign(p.sign, p.coefficient)
  }

  lemma WithSignTimes(sign: Sign, m: nat, k: nat)
    ensures WithSign(sign, m) * k == WithSign(sign, m * k)
  {
  }

  ghost function Value(p: Parsed): real {
    Scaled(Signed(p), p.scale)
  }

  ghost function ValueOf(text: string): real
    requires IsDecimalString(text)
  {
    Value(ParsedOf(text))
  }

  /** A coefficient brought up to a larger scale denotes the same number. */
  lemma Rescale(p: Parsed, scale: nat)
    requires p.scale <= scale
    ensures Scaled(Signed(p) * Pow10(scale - p.scale), scale) == Value(p)
  {
    ScaledShift(Signed(p), p.scale, scale - p.scale);
  }

  // --------------------------------------------------------------- printing

  /** Digits with the dot `scale` places from the right, trailing fractional zeros dropped. */
  function Render(digits: string, scale: nat): string
    requires scale <= |digits|
  {
    var whole := digits[..|digits| - scale];
    var fraction := StripTrailingZeros(digits[|digits| - scale..]);
    if fraction == "" then whole else whole + "." + fraction
  }

  function MinusFor(sign: Sign): string {
    if sign == Negative then "-" else ""
  }

  function Format(coefficient: nat, scale: nat, sign: Sign): string {
    if coefficient == 0 then "0"
    else if scale == 0 then MinusFor(sign) + FromNat(coefficient)
    else MinusFor(sign) + Render(PadStart(FromNat(coefficient), scale + 1), scale)
  }

  /** No redundant leading zero, no trailing fractional zero, no negative zero. */
  predicate Canonical(text: string) {
    && IsDecimalString(text)
    && (|IntegerPart(text)| == 1 || IntegerPart(text)[0] != '0')
    && (FractionPart(text) == "" || FractionPart(text)[|FractionPart(text)| - 1] != '0')
    && text != "-0"
  }

  /** A parsed decimal that cannot be written at a smaller scale and is not a negative zero. */
  predicate Reduced(p: Parsed) {
    && (p.scale > 0 ==> p.coefficient % 10 != 0)
    && (p.coefficient == 0 ==> p.sign == Positive)
  }

  /** What the padded digits of the printer hold: every digit of the coefficient, cut at the scale. */
  lemma PaddedDigits(coefficient: nat, scale: nat)
    ensures var digits := PadStart(FromNat(coefficient), scale + 1);
            var whole := digits[..|digits| - scale];
            && AllDigits(digits) && whole != ""
            && ToNat(digits) == coefficient
            && (|digits| == scale + 1 || digits[0] != '0')
  {
    PadStartToNat(FromNat(coefficient), scale + 1);
    FromNatToNat(coefficient);
    FromNatNoLeadingZero(coefficient);
  }

  /** A coefficient and scale as the printer splits them: digits before the dot, and after it without trailing zeros. */
  predicate SplitsTo(coefficient: nat, scale: nat, whole: string, fraction: string) {
    && AllDigits(whole) && whole != ""
    && AllDigits(fraction) && |fraction| <= scale
    && (|whole| == 1 || whole[0] != '0')
    && (fraction == "" || fraction[|fraction| - 1] != '0')
    && AllDigits(whole + fraction)
    && ToNat(whole + fraction) * Pow10(scale - |fraction|) == coefficient
  }

  lemma SplitInteger(coefficient: nat)
    ensures SplitsTo(coefficient, 0, FromNat(coefficient), "")
  {
    assert FromNat(coefficient) + "" == FromNat(coefficient);
    FromNatToNat(coefficient);
    FromNatNoLeadingZero(coefficient);
  }

  lemma TrimmedToNat(whole: string, full: string)
    requires AllDigits(whole) && AllDigits(full)
    ensures var fraction := StripTrailingZeros(full);
            && AllDigits(whole + fraction) && AllDigits(whole + full)
            && ToNat(whole + fraction) * Pow10(|full| - |fraction|) == ToNat(whole + full)
  {
    var fraction := StripTrailingZeros(full);
    var zeros := Zeros(|full| - |fraction|);
    assert whole + full == (whole + fraction) + zeros;
    ToNatConcat(whole + fraction, zeros);
    ZerosToNat(|zeros|);
  }

  lemma SplitDigits(whole: string, full: string)
    requires AllDigits(whole) && whole != "" && AllDigits(full)
    requires |whole| == 1 || whole[0] != '0'
    ensures SplitsTo(ToNat(whole + full), |full|, whole, StripTrailingZeros(full))
  {
    TrimmedToNat(whole, full);
    hide ToNat, Pow10;
  }

  lemma SplitPadded(digits: string, scale: nat)
    requires AllDigits(digits) && |digits| > scale
    requires |digits| == scale + 1 || digits[0] != '0'
    ensures SplitsTo(ToNat(digits), scale, digits[..|digits| - scale], StripTrailingZeros(digits[|digits| - scale..]))
  {
    hide StripTrailingZeros, SplitsTo, ToNat;
    var whole, full := digits[..|digits| - scale], digits[|digits| - scale..];
    assert digits == whole + full;
    SplitDigits(whole, full);
  }

  lemma RenderParts(digits: string, scale: nat)
    requires scale <= |digits|
    ensures Render(digits, scale)
         == digits[..|digits| - scale] + DotAndFraction(StripTrailingZeros(digits[|digits| - scale..]))
  {
    var whole := digits[..|digits| - scale];
    var fraction := StripTrailingZeros(digits[|digits| - scale..]);
    if fraction == "" {
      assert whole + "" == whole;
    } else {
      assert whole + "." + fraction == whole + ("." + fraction);
    }
  }

  /** The printed text is spelled from parts whose digits, with the trimmed zeros put back, are the coefficient. */
  lemma FormatParts(coefficient: nat, scale: nat, sign: Sign) returns (whole: string, fraction: string)
    requires coefficient > 0
    ensures SplitsTo(coefficient, scale, whole, fraction)
    ensures Format(coefficient, scale, sign) == Spell(MinusFor(sign), whole, fraction)
  {
    if scale == 0 {
      whole, fraction := FromNat(coefficient), "";
      SplitInteger(coefficient);
      assert whole + "" == whole;
    } else {
      var digits := PadStart(FromNat(coefficient), scale + 1);
      whole := digits[..|digits| - scale];
      fraction := StripTrailingZeros(digits[|digits| - scale..]);
      PaddedDigits(coefficient, scale);
      SplitPadded(digits, scale);
      RenderParts(digits, scale);
    }
  }

  lemma SpellZero()
    ensures Spell("", "0", "") == "0" && Spell("-", "0", "") == "-0"
    ensures AllDigits("0" + "") && ToNat("0" + "") == 0
  {
    assert "0" + "" == "0";
    assert ToNat("0"[..0]) == 0;
  }

  /** Printing reduces: the parse of the printed text is the reduced form of what was printed. */
  lemma FormatParses(coefficient: nat, scale: nat, sign: Sign)
    ensures var t := Format(coefficient, scale, sign);
            && Canonical(t)
            && var p := ParsedOf(t);
            && p.scale <= scale
            && p.coefficient * Pow10(scale - p.scale) == coefficient
            && p.sign == (if coefficient == 0 then Positive else sign)
  {
    if coefficient == 0 {
      ZeroParses(scale, sign);
    } else {
      NonZeroParses(coefficient, scale, sign);
    }
  }

  lemma ZeroParses(scale: nat, sign: Sign)
    ensures var t := Format(0, scale, sign);
            && Canonical(t) && ParsedOf(t) == Parsed(Positive, 0, 0)
  {
    hide IsDecimalString;
    SpellZero();
    SpellParts("", "0", "");
  }

  lemma NonZeroParses(coefficient: nat, scale: nat, sign: Sign)
    requires coefficient > 0
    ensures var t := Format(coefficient, scale, sign);
            && Canonical(t)
            && var p := ParsedOf(t);
            && p.scale <= scale
            && p.coefficient * Pow10(scale - p.scale) == coefficient
            && p.sign == sign
  {
    hide Format, Spell, IsDecimalString, IntegerPart, FractionPart, Pow10;
    var whole, fraction := FormatParts(coefficient, scale, sign);
    SpellParts(MinusFor(sign), whole, fraction);
    NotNegativeZero(Format(coefficient, scale, sign));
  }

  lemma NotNegativeZero(text: string)
    requires IsDecimalString(text) && ParsedOf(text).coefficient > 0
    ensures text != "-0"
  {
    SpellZero();
    SpellParts("-", "0", "");
  }

  /** Printing never changes the number. */
  lemma FormatValue(coefficient: nat, scale: nat, sign: Sign)
    ensures var t := Format(coefficient, scale, sign);
            && Canonical(t)
            && ValueOf(t) == Scaled(WithSign(sign, coefficient), scale)
  {
    hide Format, Canonical, Pow10, Scaled;
    FormatParses(coefficient, scale, sign);
    var p := ParsedOf(Format(coefficient, scale, sign));
    Rescale(p, scale);
    WithSignTimes(p.sign, p.coefficient, Pow10(scale - p.scale));
  }

  lemma CanonicalIsReduced(text: string)
    requires Canonical(text)
    ensures Reduced(ParsedOf(text))
  {
    var whole, fraction := IntegerPart(text), FractionPart(text);
    var digits := whole + fraction;
    if fraction != "" {
      assert digits[|digits| - 1] == fraction[|fraction| - 1];
    } else {
      assert digits == whole;
      if whole[0] != '0' {
        LeadingDigitPositive(whole);
      } else {
        PartsSpell(text);
        assert whole == "0";
        assert HasMinus(text) ==> text == "-0";
      }
    }
  }

  lemma CanonicalZero(text: string)
    requires Canonical(text) && ParsedOf(text).coefficient == 0
    ensures text == "0"
  {
    var whole, fraction := IntegerPart(text), FractionPart(text);
    CanonicalIsReduced(text);
    PartsSpell(text);
    assert fraction == "";
    assert whole + fraction == whole;
    if whole[0] != '0' {
      LeadingDigitPositive(whole);
    }
    assert whole == "0";
    SpellZero();
  }

  /** Canonical text is exactly what printing its own parse gives. */
  lemma CanonicalPrintsItself(text: string)
    requires Canonical(text)
    ensures var p := ParsedOf(text); Format(p.coefficient, p.scale, p.sign) == text
  {
    var p := ParsedOf(text);
    var whole, fraction := IntegerPart(text), FractionPart(text);
    if p.coefficient == 0 {
      CanonicalZero(text);
    } else {
      PartsSpell(text);
      if p.scale == 0 {
        assert whole + fraction == whole;
        ToNatFromNat(whole);
      } else {
        PaddedWidth(whole, fraction);
        var digits := PadStart(FromNat(p.coefficient), p.scale + 1);
        RenderParts(digits, p.scale);
        assert digits[..|digits| - p.scale] == whole;
        assert digits[|digits| - p.scale..] == fraction;
      }
    }
  }

  lemma PaddedWidth(whole: string, fraction: string)
    requires AllDigits(whole) && AllDigits(fraction) && whole != ""
    requires |whole| == 1 || whole[0] != '0'
    ensures AllDigits(whole + fraction)
    ensures PadStart(FromNat(ToNat(whole + fraction)), |fraction| + 1) == whole + fraction
  {
    var w := whole + fraction;
    if |whole| == 1 {
      PadStartRecovers(w);
    } else {
      ToNatFromNat(w);
    }
  }

  /** A reduced decimal is the only reduced one with its value. */
  lemma ReducedUnique(p: Parsed, q: Parsed)
    requires Reduced(p) && Reduced(q) && Value(p) == Value(q)
    ensures p == q
  {
    if p.scale <= q.scale {
      ReducedUniqueAtScale(p, q);
    } else {
      ReducedUniqueAtScale(q, p);
    }
  }

  lemma ReducedUniqueAtScale(p: Parsed, q: Parsed)
    requires Reduced(p) && Reduced(q) && Value(p) == Value(q) && p.scale <= q.scale
    ensures p == q
  {
    var k := q.scale - p.scale;
    Rescale(p, q.scale);
    ScaledOrder(Signed(p) * Pow10(k), Signed(q), q.scale);
    WithSignTimes(p.sign, p.coefficient, Pow10(k));
    if k > 0 {
      TenDivides(p.coefficient, k);
    }
  }

  lemma TenDivides(c: nat, e: nat)
    requires e > 0
    ensures (c * Pow10(e)) % 10 == 0
  {
    assert c * (10 * Pow10(e - 1)) == 10 * (c * Pow10(e - 1));
  }

  /** Two canonical decimals are equal as strings exactly when they are equal as numbers. */
  lemma EqualTextIffEqualValue(t: string, u: string)
    requires Canonical(t) && Canonical(u)
    ensures t == u <==> ValueOf(t) == ValueOf(u)
  {
    if ValueOf(t) == ValueOf(u) {
      CanonicalIsReduced(t);
      CanonicalIsReduced(u);
      ReducedUnique(ParsedOf(t), ParsedOf(u));
      CanonicalPrintsItself(t);
      CanonicalPrintsItself(u);
    }
  }
}
