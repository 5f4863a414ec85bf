/**
 * What number a text writes, read off its characters by place value, and that
 * both parsers read exactly that number.
 */
module DecimalReading {
  import opened Naturals
  import opened ScaledReals
  import opened DigitStrings
  import opened JsText
  import opened Decimals
  import opened AlertEvaluator
  import Arithmetic = DecimalArithmetic

  // -------------------------------------------------------------- place value

  ghost function TenTo(k: int): real
    decreases if k < 0 then -k else k
  {
    if k == 0 then 1.0 else if k > 0 then 10.0 * TenTo(k - 1) else TenTo(k + 1) / 10.0
  }

  /** The digits from left to right, the first one counting for ten to the `place`. */
  ghost function Positional(s: string, place: int): real
    requires AllDigits(s)
  {
    if s == "" then 0.0 else (s[0] - '0') as int as real * TenTo(place) + Positional(s[1..], place - 1)
  }

  ghost function Sign(minus: bool, x: real): real {
    if minus then -x else x
  }

  lemma TenToNext(k: int)
    ensures TenTo(k + 1) == 10.0 * TenTo(k)
  {
  }

  lemma {:induction false} TenToPower(k: int, e: nat)
    ensures TenTo(k + e) == Pow10(e) as real * TenTo(k)
  {
    if e > 0 {
      TenToPower(k, e - 1);
      TenToNext(k + e - 1);
      hide TenTo;
      assert Pow10(e) == 10 * Pow10(e - 1);
      Regroup(Pow10(e - 1) as real, TenTo(k));
    }
  }

  lemma Regroup(p: real, t: real)
    ensures 10.0 * (p * t) == (10.0 * p) * t
  {
  }

  lemma {:induction false} ScaledIsShifted(n: int, scale: nat)
    ensures Scaled(n, scale) == n as real * TenTo(0 - scale)
  {
    if scale > 0 {
      ScaledIsShifted(n, scale - 1);
      TenToNext(0 - scale);
      hide TenTo;
      Tenth(n as real, TenTo(0 - scale));
    }
  }

  lemma Tenth(x: real, t: real)
    ensures (x * (10.0 * t)) / 10.0 == x * t
  {
    assert x * (10.0 * t) == 10.0 * (x * t);
  }

  /** Place value and the coefficient agree. */
  lemma {:induction false} PositionalIsCoefficient(s: string, place: int)
    requires AllDigits(s)
    ensures Positional(s, place) == ToNat(s) as real * TenTo(place - |s| + 1)
  {
    hide ToNat, TenTo, Pow10, Positional, DigitValue;
    if s == "" {
      NothingWritten(place);
    } else {
      var tail := s[1..];
      PositionalFirst(s, place);
      PositionalIsCoefficient(tail, place - 1);
      FirstDigitApart(s);
      TenToPower(place - |s| + 1, |tail|);
      Gather(DigitValue(s[0]), Pow10(|tail|), ToNat(tail), TenTo(place - |s| + 1), TenTo(place));
    }
  }

  lemma NothingWritten(place: int)
    ensures Positional("", place) == 0.0 && ToNat("") == 0
    ensures 0.0 * TenTo(place + 1) == 0.0
  {
  }

  lemma FirstDigitApart(s: string)
    requires AllDigits(s) && s != ""
    ensures ToNat(s) == DigitValue(s[0]) * Pow10(|s| - 1) + ToNat(s[1..])
  {
    assert s == [s[0]] + s[1..];
    ToNatConcat([s[0]], s[1..]);
    OneDigit(s[0]);
  }

  lemma PositionalFirst(s: string, place: int)
    requires AllDigits(s) && s != ""
    ensures Positional(s, place) == DigitValue(s[0]) as real * TenTo(place) + Positional(s[1..], place - 1)
  {
  }

  lemma OneDigit(c: char)
    requires IsDigit(c)
    ensures ToNat([c]) == DigitValue(c)
  {
    assert [c][..0] == "";
  }

  lemma Gather(d: nat, p: nat, n: nat, t: real, u: real)
    requires u == p as real * t
    ensures d as real * u + n as real * t == (d * p + n) as real * t
  {
    CastProduct(d, p);
    assert d as real * (p as real * t) == (d as real * p as real) * t;
    assert (d * p + n) as real == d as real * p as real + n as real;
  }

  // --------------------------------------------------------- decimal strings

  /** A decimal string denotes the number its characters write. */
  lemma DecimalsByPlaceValue(minus: string, whole: string, fraction: string)
    requires IsMinus(minus) && AllDigits(whole) && whole != "" && AllDigits(fraction)
    ensures var t := Spell(minus, whole, fraction);
            && IsDecimalString(t) && AllDigits(whole + fraction)
            && ValueOf(t) == Sign(minus == "-", Positional(whole + fraction, |whole| - 1))
  {
    hide IsDecimalString, Spell, Scaled, TenTo, Positional, ToNat, ParsedOf;
    SpelledParse(minus, whole, fraction);
    SignedPositional(minus == "-", whole + fraction, |fraction|);
  }

  lemma SpelledParse(minus: string, whole: string, fraction: string)
    requires IsMinus(minus) && AllDigits(whole) && whole != "" && AllDigits(fraction)
    ensures var t := Spell(minus, whole, fraction);
            && IsDecimalString(t) && AllDigits(whole + fraction)
            && ParsedOf(t) == Parsed(if minus == "-" then Negative else Positive, ToNat(whole + fraction), |fraction|)
  {
    hide IsDecimalString, Spell, IntegerPart, FractionPart, ToNat, HasMinus;
    SpellParts(minus, whole, fraction);
  }

  lemma SignedPositional(minus: bool, digits: string, places: nat)
    requires AllDigits(digits)
    ensures Scaled(SignedDigits(minus, ToNat(digits)), places) == Sign(minus, Positional(digits, |digits| - places - 1))
  {
    hide Scaled, TenTo, Positional, ToNat;
    PositionalIsCoefficient(digits, |digits| - places - 1);
    ScaledIsShifted(SignedDigits(minus, ToNat(digits)), places);
    Negated(ToNat(digits), TenTo(0 - places));
  }

  lemma Negated(n: nat, t: real)
    ensures (0 - n) as real * t == -(n as real * t)
  {
  }

  /**
   * Two decimals written with the same number of digits before and after the
   * dot compare as the first characters in which they differ.
   */
  lemma CompareByFirstDifference(whole: string, fraction: string, whole': string, fraction': string, i: nat)
    requires AllDigits(whole) && AllDigits(fraction) && AllDigits(whole') && AllDigits(fraction')
    requires |whole| == |whole'| > 0 && |fraction| == |fraction'| && i < |whole + fraction|
    requires (whole + fraction)[..i] == (whole' + fraction')[..i]
    requires (whole + fraction)[i] < (whole' + fraction')[i]
    ensures var t, u := Spell("", whole, fraction), Spell("", whole', fraction');
            Arithmetic.Compare(t, u) == Ok(-1) && Arithmetic.Compare(u, t) == Ok(1) && CompareTexts(t, u) == Ok(-1)
  {
    var t, u := Spell("", whole, fraction), Spell("", whole', fraction');
    SpellParts("", whole, fraction);
    SpellParts("", whole', fraction');
    FirstDifferenceDecides(whole + fraction, whole' + fraction', i);
    ScaledOrder(ToNat(whole + fraction), ToNat(whole' + fraction'), |fraction|);
    assert ValueOf(t) < ValueOf(u) by {
      hide IsDecimalString, IntegerPart, FractionPart, Spell, Scaled, ToNat, HasMinus;
    }
    hide IsDecimalString, Spell, Scaled, ToNat, ValueOf, Arithmetic.Compare, CompareTexts, PriceValue, Readable;
    Arithmetic.CompareByValue(t, u);
    Arithmetic.CompareByValue(u, t);
    SameValueAsDecimal(t);
    SameValueAsDecimal(u);
    CompareTextsByValue(t, u);
    assert !HasMinus(t) && !HasMinus(u);
  }

  // ---------------------------------------------------- scientific notation

  /** The pieces of a price text, in the order they are written. */
  datatype Parts = Parts(
    sign: string, whole: string, dot: bool, fraction: string, mark: string, exponentSign: string, exponent: string)

  predicate IsSign(text: string) {
    text == "" || text == "+" || text == "-"
  }

  /** An optional sign, digits, optionally a dot and any digits, optionally an exponent of either case. */
  predicate WellFormed(p: Parts) {
    && IsSign(p.sign)
    && p.whole != "" && AllDigits(p.whole)
    && AllDigits(p.fraction) && (!p.dot ==> p.fraction == "")
    && (if p.mark == "" then p.exponentSign == "" && p.exponent == ""
        else (p.mark == "e" || p.mark == "E") && IsSign(p.exponentSign) && p.exponent != "" && AllDigits(p.exponent))
  }

  function MantissaOf(p: Parts): string {
    p.whole + (if p.dot then "." + p.fraction else "")
  }

  function ExponentOf(p: Parts): string {
    p.exponentSign + p.exponent
  }

  function Written(p: Parts): string {
    p.sign + (MantissaOf(p) + (p.mark + ExponentOf(p)))
  }

  function Power(p: Parts): int
    requires WellFormed(p)
  {
    if p.exponentSign == "-" then 0 - ToNat(p.exponent) else ToNat(p.exponent)
  }

  lemma SignTaken(sign: string, rest: string)
    requires IsSign(sign) && rest != "" && IsDigit(rest[0])
    ensures WithoutSign(sign + rest) == rest && (HasMinus(sign + rest) <==> sign == "-")
  {
    if sign == "" {
      assert sign + rest == rest;
    } else {
      assert (sign + rest)[0] == sign[0] && (sign + rest)[1..] == rest;
    }
  }

  lemma {:induction false} MarkAt(mantissa: string, rest: string)
    requires forall i :: 0 <= i < |mantissa| ==> mantissa[i] != 'e' && mantissa[i] != 'E'
    requires rest == "" || rest[0] == 'e' || rest[0] == 'E'
    ensures ExponentMark(mantissa + rest) == |mantissa|
  {
    if mantissa == "" {
      assert mantissa + rest == rest;
    } else {
      assert (mantissa + rest)[1..] == mantissa[1..] + rest;
      MarkAt(mantissa[1..], rest);
    }
  }

  lemma MantissaRead(p: Parts)
    requires WellFormed(p)
    ensures var m := MantissaOf(p);
            && Whole(m) == p.whole && Fraction(m) == p.fraction && m != "" && IsDigit(m[0])
            && forall i :: 0 <= i < |m| ==> m[i] != 'e' && m[i] != 'E'
  {
    var rest := if p.dot then "." + p.fraction else "";
    DotAt(p.whole, rest);
    hide Dot;
    WholeAndRest(p.whole, rest);
  }

  lemma WholeAndRest(whole: string, rest: string)
    ensures (whole + rest)[..|whole|] == whole
    ensures rest != "" ==> (whole + rest)[|whole| + 1..] == rest[1..]
    ensures forall i :: 0 <= i < |whole + rest| ==>
              (whole + rest)[i] == if i < |whole| then whole[i] else rest[i - |whole|]
  {
  }

  lemma ExponentRead(p: Parts)
    requires WellFormed(p)
    ensures var body := MantissaOf(p) + (p.mark + ExponentOf(p));
            && Mantissa(body) == MantissaOf(p)
            && ExponentText(body) == if p.mark == "" then "0" else ExponentOf(p)
  {
    hide MantissaOf;
    var m, rest := MantissaOf(p), p.mark + ExponentOf(p);
    MantissaRead(p);
    if p.mark == "" { assert rest == ""; } else { assert rest[0] == p.mark[0]; }
    MarkAt(m, rest);
    assert (m + rest)[..|m|] == m;
    if p.mark != "" { assert (m + rest)[|m| + 1..] == ExponentOf(p); }
  }

  lemma ExponentMeans(p: Parts)
    requires WellFormed(p)
    ensures var e := if p.mark == "" then "0" else ExponentOf(p);
            && WithoutSign(e) != "" && AllDigits(WithoutSign(e)) && IntegerOf(e) == Power(p)
  {
    if p.mark == "" {
      assert ToNat("0") == 0 by { assert "0"[..0] == ""; }
      assert WithoutSign("0") == "0";
    } else {
      SignTaken(p.exponentSign, p.exponent);
    }
  }

  /** A text so written is read piece by piece. */
  lemma ReadsTheParts(p: Parts)
    requires WellFormed(p)
    ensures var t := Written(p);
            && IsNumeral(t) && AllDigits(p.whole + p.fraction)
            && Read(t) == Numeral(p.sign == "-", ToNat(p.whole + p.fraction), |p.fraction|, Power(p))
  {
    hide MantissaOf, ExponentOf, Whole, Fraction, Mantissa, ExponentText, IntegerOf, Power;
    MantissaRead(p);
    ExponentRead(p);
    ExponentMeans(p);
    var m := MantissaOf(p);
    assert (m + (p.mark + ExponentOf(p)))[0] == m[0];
    SignTaken(p.sign, m + (p.mark + ExponentOf(p)));
  }

  /**
   * The evaluator reads a price text as the number its characters write, the
   * exponent moving the place of every digit.
   */
  lemma PricesByPlaceValue(p: Parts, before: string, after: string)
    requires WellFormed(p) && Blank(before) && Blank(after)
    ensures AllDigits(p.whole + p.fraction)
    ensures var text := before + Written(p) + after;
            && Readable(text)
            && PriceValue(text) == Sign(p.sign == "-", Positional(p.whole + p.fraction, |p.whole| - 1 + Power(p)))
  {
    hide Written, IsNumeral, Trim, Read, Scaled, TenTo, Positional, ToNat, Power, Denotes;
    ReadsTheParts(p);
    NothingAround(p);
    TrimRemovesTheSpace(before, Written(p), after);
    ParsingIsExact(before + Written(p) + after);
    ByPlace(p.sign == "-", p.whole + p.fraction, |p.fraction|, Power(p));
  }

  lemma NothingAround(p: Parts)
    requires WellFormed(p)
    ensures var t := Written(p); t != "" && !IsSpace(t[0]) && !IsSpace(t[|t| - 1])
  {
    var t := Written(p);
    if p.sign == "" { assert t[0] == p.whole[0]; } else { assert t[0] == p.sign[0]; }
    if p.mark != "" {
      assert t[|t| - 1] == p.exponent[|p.exponent| - 1];
    } else if p.dot && p.fraction != "" {
      assert t[|t| - 1] == p.fraction[|p.fraction| - 1];
    } else if p.dot {
      assert t[|t| - 1] == '.';
    } else {
      assert t[|t| - 1] == p.whole[|p.whole| - 1];
    }
  }

  lemma ByPlace(minus: bool, digits: string, places: nat, exponent: int)
    requires AllDigits(digits)
    ensures Denotes(Numeral(minus, ToNat(digits), places, exponent))
         == Sign(minus, Positional(digits, |digits| - places - 1 + exponent))
  {
    hide Scaled, TenTo, Positional, ToNat, Pow10, ShiftRight;
    var n := SignedDigits(minus, ToNat(digits));
    PositionalIsCoefficient(digits, |digits| - places - 1 + exponent);
    Negated(ToNat(digits), TenTo(exponent - places));
    if exponent >= 0 {
      ScaledIsShifted(n, places);
      TenToPower(0 - places, exponent);
      Exchange(n as real, TenTo(0 - places), Pow10(exponent) as real);
    } else {
      ShiftRightScaled(n, places, -exponent);
      ScaledIsShifted(n, places - exponent);
    }
  }

  lemma Exchange(x: real, t: real, p: real)
    ensures (x * t) * p == x * (p * t)
  {
  }

  /** Only texts so written, with white space around them, are readable. */
  lemma ReadableIff(text: string)
    ensures Readable(text) <==> exists p: Parts :: WellFormed(p) && Trim(text) == Written(p)
  {
    var t := Trim(text);
    if Readable(text) {
      TakenApart(t);
      assert WellFormed(PartsOfText(t)) && t == Written(PartsOfText(t));
    }
    if p: Parts :| WellFormed(p) && t == Written(p) {
      ReadsTheParts(p);
    }
  }

  function SignTextOf(text: string): string {
    if HasSign(text) then text[..1] else ""
  }

  function PartsOfText(text: string): Parts {
    var body := WithoutSign(text);
    var m := Mantissa(body);
    var marked := ExponentMark(body) < |body|;
    var e := if marked then ExponentText(body) else "";
    Parts(SignTextOf(text), Whole(m), Dot(m) < |m|, Fraction(m),
          if marked then [body[ExponentMark(body)]] else "", SignTextOf(e), WithoutSign(e))
  }

  lemma SignPutBack(text: string)
    ensures text == SignTextOf(text) + WithoutSign(text) && IsSign(SignTextOf(text))
  {
  }

  lemma AroundCharacter(s: string, i: nat)
    requires i < |s|
    ensures s == s[..i] + ([s[i]] + s[i + 1..])
  {
  }

  lemma MantissaPutBack(m: string)
    ensures m == Whole(m) + (if Dot(m) < |m| then "." + Fraction(m) else "")
  {
    hide Dot;
    if Dot(m) < |m| {
      AroundCharacter(m, Dot(m));
      assert [m[Dot(m)]] == ".";
    } else {
      assert m[..Dot(m)] == m;
      assert m + "" == m;
    }
  }

  /** The exponent letter and what follows it. */
  function MarkedExponent(body: string): string {
    var i := ExponentMark(body);
    if i < |body| then [body[i]] + ExponentText(body) else ""
  }

  lemma BodyPutBack(body: string)
    ensures body == Mantissa(body) + MarkedExponent(body)
  {
    hide ExponentMark;
    var i := ExponentMark(body);
    if i < |body| {
      AroundCharacter(body, i);
    } else {
      assert body[..i] == body;
      assert body + "" == body;
    }
  }

  lemma TakenApart(text: string)
    requires IsNumeral(text)
    ensures WellFormed(PartsOfText(text)) && text == Written(PartsOfText(text))
  {
    hide Whole, Fraction, Mantissa, ExponentText, ExponentMark, Dot, WithoutSign, SignTextOf, AllDigits;
    var body := WithoutSign(text);
    SignPutBack(text);
    MantissaPutBack(Mantissa(body));
    BodyPutBack(body);
    ExponentPutBack(body);
    WholeParts(text);
  }

  lemma ExponentPutBack(body: string)
    ensures var marked := ExponentMark(body) < |body|;
            var e := if marked then ExponentText(body) else "";
            MarkedExponent(body)
              == (if marked then [body[ExponentMark(body)]] else "") + (SignTextOf(e) + WithoutSign(e))
  {
    hide ExponentMark, ExponentText, WithoutSign, SignTextOf;
    var e := if ExponentMark(body) < |body| then ExponentText(body) else "";
    SignPutBack(e);
    assert "" + "" == "";
  }

  lemma WholeParts(text: string)
    requires IsNumeral(text)
    ensures WellFormed(PartsOfText(text))
  {
    hide WithoutSign, SignTextOf, AllDigits, Whole, ExponentMark, Dot;
    var body := WithoutSign(text);
    SignPutBack(text);
    SignPutBack(ExponentText(body));
    SignPutBack("");
  }
}
