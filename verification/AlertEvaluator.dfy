/**
 * The price-alert evaluator: an exponent-aware decimal comparison, the crossing
 * rule and the notification cooldown.
 */
module AlertEvaluator {
  import opened Options
  import opened Naturals
  import opened ScaledReals
  import opened DigitStrings
  import opened JsText
  import opened Decimals
  import Arithmetic = DecimalArithmetic

  datatype Direction = Buy | Sell

  const MS_PER_MINUTE := 60 * 1000

  datatype Number = Number(coefficient: int, scale: nat)

  // ---------------------------------------------------------------- parsing

  predicate HasSign(text: string) {
    text != "" && (text[0] == '-' || text[0] == '+')
  }

  function WithoutSign(text: string): string {
    if HasSign(text) then text[1..] else text
  }

  /** Position of the exponent letter, or the length when there is none. */
  function ExponentMark(text: string): (i: nat)
    ensures i <= |text|
    ensures forall k :: 0 <= k < i ==> text[k] != 'e' && text[k] != 'E'
    ensures i < |text| ==> text[i] == 'e' || text[i] == 'E'
  {
    if text == "" || text[0] == 'e' || text[0] == 'E' then 0 else 1 + ExponentMark(text[1..])
  }

  function Mantissa(text: string): string {
    text[..ExponentMark(text)]
  }

  function ExponentText(text: string): string {
    if ExponentMark(text) == |text| then "0" else text[ExponentMark(text) + 1..]
  }

  function Whole(mantissa: string): string {
    mantissa[..Dot(mantissa)]
  }

  function Fraction(mantissa: string): string {
    if Dot(mantissa) == |mantissa| then "" else mantissa[Dot(mantissa) + 1..]
  }

  /** An optional sign, digits, optionally a dot and digits (possibly none), optionally an exponent. */
  predicate IsNumeral(text: string) {
    var body := WithoutSign(text);
    && Whole(Mantissa(body)) != ""
    && AllDigits(Whole(Mantissa(body)))
    && AllDigits(Fraction(Mantissa(body)))
    && WithoutSign(ExponentText(body)) != ""
    && AllDigits(WithoutSign(ExponentText(body)))
  }

  function IntegerOf(text: string): int
    requires AllDigits(WithoutSign(text))
  {
    var n := ToNat(WithoutSign(text));
    if HasMinus(text) then 0 - n else n
  }

  /** Sign, digits, number of fractional digits and exponent, as written. */
  datatype Numeral = Numeral(negative: bool, digits: nat, places: nat, exponent: int)

  function Read(text: string): Numeral
    requires IsNumeral(text)
  {
    var body := WithoutSign(text);
    var whole, fraction := Whole(Mantissa(body)), Fraction(Mantissa(body));
    assert AllDigits(whole + fraction);
    Numeral(HasMinus(text), ToNat(whole + fraction), |fraction|, IntegerOf(ExponentText(body)))
  }

  function SignedDigits(negative: bool, n: nat): int {
    if negative then 0 - n else n
  }

  /** A negative scale is folded into the coefficient. */
  function ToNumber(r: Numeral): Number {
    var scale := r.places - r.exponent;
    if scale < 0 then Number(SignedDigits(r.negative, r.digits * Pow10(-scale)), 0)
    else Number(SignedDigits(r.negative, r.digits), scale)
  }

  function ParseNumber(value: string): Result<Number> {
    var text := Trim(value);
    if IsNumeral(text) then Ok(ToNumber(Read(text))) else Err(InvalidDecimal)
  }

  function CompareNumbers(left: Number, right: Number): int {
    var scale := Max(left.scale, right.scale);
    var x := left.coefficient * Pow10(scale - left.scale);
    var y := right.coefficient * Pow10(scale - right.scale);
    if x < y then -1 else if x > y then 1 else 0
  }

  function CompareTexts(left: string, right: string): Result<int> {
    var x :- ParseNumber(left);
    var y :- ParseNumber(right);
    Ok(CompareNumbers(x, y))
  }

  // ------------------------------------------------------------------ rules

  function HasCrossed(direction: Direction, lastCheckedPrice: Option<string>, currentPrice: string, targetPrice: string)
    : Result<bool>
  {
    if lastCheckedPrice.None? then Ok(false)
    else
      var previousToTarget :- CompareTexts(lastCheckedPrice.value, targetPrice);
      var currentToTarget :- CompareTexts(currentPrice, targetPrice);
      Ok(if direction == Sell then previousToTarget < 0 && currentToTarget >= 0
         else previousToTarget > 0 && currentToTarget <= 0)
  }

  predicate IsCooldownExpired(lastTriggeredAt: Option<int>, cooldownMinutes: int, now: int) {
    lastTriggeredAt.None? || now - lastTriggeredAt.value >= cooldownMinutes * MS_PER_MINUTE
  }

  // ------------------------------------------------------------------ value

  ghost function NumberValue(n: Number): real {
    Scaled(n.coefficient, n.scale)
  }

  predicate Readable(text: string) {
    ParseNumber(text).Ok?
  }

  ghost function PriceValue(text: string): real
    requires Readable(text)
  {
    NumberValue(ParseNumber(text).value)
  }

  /** What scientific notation denotes: the digits with the dot in place, times ten to the exponent. */
  ghost function Denotes(r: Numeral): real {
    var x := Scaled(SignedDigits(r.negative, r.digits), r.places);
    if r.exponent >= 0 then x * Pow10(r.exponent) as real else ShiftRight(x, -r.exponent)
  }

  ghost function ShiftRight(x: real, k: nat): real {
    if k == 0 then x else ShiftRight(x, k - 1) / 10.0
  }

  lemma {:induction false} ShiftRightScaled(n: int, s: nat, k: nat)
    ensures ShiftRight(Scaled(n, s), k) == Scaled(n, s + k)
  {
    if k > 0 { ShiftRightScaled(n, s, k - 1); }
  }

  lemma {:induction false} ShiftLeftWithin(n: int, s: nat, k: nat)
    requires k <= s
    ensures Scaled(n, s) * Pow10(k) as real == Scaled(n, s - k)
  {
    if k > 0 {
      ShiftLeftWithin(n, s, k - 1);
      TimesTen(Scaled(n, s), Pow10(k - 1));
      assert Scaled(n, s - k + 1) == Scaled(n, s - k) / 10.0;
    }
  }

  lemma TimesTen(x: real, p: nat)
    ensures x * (10 * p) as real == 10.0 * (x * p as real)
  {
  }

  lemma ShiftLeftBeyond(n: int, s: nat, k: nat)
    requires k > s
    ensures Scaled(n, s) * Pow10(k) as real == (n * Pow10(k - s)) as real
  {
    var p, q := Pow10(s), Pow10(k - s);
    ScaledTimesPower(n, s);
    Pow10Add(s, k - s);
    CastProduct(p, q);
    CastProduct(n, q);
    Associate(Scaled(n, s), p as real, q as real);
  }

  lemma SignedTimes(negative: bool, n: nat, k: nat)
    ensures SignedDigits(negative, n) * k == SignedDigits(negative, n * k)
  {
  }

  /** Folding the exponent into coefficient and scale keeps the number that was written. */
  lemma ParsingIsExact(text: string)
    requires IsNumeral(Trim(text))
    ensures PriceValue(text) == Denotes(Read(Trim(text)))
  {
    hide IsNumeral, Trim, Read;
    NumeralExact(Read(Trim(text)));
  }

  lemma ScaledAtZero(n: int)
    ensures Scaled(n, 0) == n as real
  {
  }

  lemma NumeralExact(r: Numeral)
    ensures NumberValue(ToNumber(r)) == Denotes(r)
  {
    hide Scaled, Pow10, ShiftRight;
    var n := SignedDigits(r.negative, r.digits);
    if r.exponent >= 0 {
      if r.exponent <= r.places {
        ShiftLeftWithin(n, r.places, r.exponent);
      } else {
        ShiftLeftBeyond(n, r.places, r.exponent);
        ScaledAtZero(n * Pow10(r.exponent - r.places));
        SignedTimes(r.negative, r.digits, Pow10(r.exponent - r.places));
      }
    } else {
      ShiftRightScaled(n, r.places, -r.exponent);
    }
  }

  lemma CompareNumbersByValue(x: Number, y: Number)
    ensures CompareNumbers(x, y) == Arithmetic.SignOf(NumberValue(x) - NumberValue(y))
  {
    hide Scaled, Pow10;
    var scale := Max(x.scale, y.scale);
    ScaledShift(x.coefficient, x.scale, scale - x.scale);
    ScaledShift(y.coefficient, y.scale, scale - y.scale);
    ScaledOrder(x.coefficient * Pow10(scale - x.scale), y.coefficient * Pow10(scale - y.scale), scale);
  }

  /** The evaluator's comparison is exactly the order of the numbers written. */
  lemma CompareTextsByValue(left: string, right: string)
    ensures CompareTexts(left, right).Ok? <==> Readable(left) && Readable(right)
    ensures Readable(left) && Readable(right) ==>
              CompareTexts(left, right).value == Arithmetic.SignOf(PriceValue(left) - PriceValue(right))
  {
    hide ParseNumber, CompareNumbers, NumberValue;
    if Readable(left) && Readable(right) {
      CompareNumbersByValue(ParseNumber(left).value, ParseNumber(right).value);
    }
  }

  /** An alert crosses when the last recorded price is strictly on one side and the current one has reached the other. */
  ghost predicate Crosses(direction: Direction, previous: real, current: real, target: real) {
    if direction == Sell then previous < target <= current else current <= target < previous
  }

  /** A crossing is reported exactly when two readable prices lie on opposite sides of a readable target. */
  lemma CrossingIsWitnessed(direction: Direction, last: Option<string>, current: string, target: string)
    ensures HasCrossed(direction, last, current, target) == Ok(true) <==>
              && last.Some?
              && Readable(last.value) && Readable(current) && Readable(target)
              && Crosses(direction, PriceValue(last.value), PriceValue(current), PriceValue(target))
    ensures HasCrossed(direction, last, current, target).Err? <==>
              last.Some? && !(Readable(last.value) && Readable(current) && Readable(target))
  {
    hide CompareTexts, ParseNumber, PriceValue;
    if last.Some? {
      CompareTextsByValue(last.value, target);
      CompareTextsByValue(current, target);
    }
  }

  // ------------------------------------------- agreement with the decimal module

  lemma {:induction false} NoExponentMark(text: string)
    requires forall i :: 0 <= i < |text| ==> text[i] != 'e' && text[i] != 'E'
    ensures ExponentMark(text) == |text|
  {
    if text != "" { NoExponentMark(text[1..]); }
  }

  lemma DecimalCharacters(text: string)
    requires IsDecimalString(text)
    ensures text != ""
    ensures forall i :: 0 <= i < |text| ==> IsDigit(text[i]) || text[i] == '-' || text[i] == '.'
  {
    hide IntegerPart, FractionPart, Dot;
    UnsignedParts(text);
    var digits := Unsigned(text);
    forall i | 0 <= i < |digits|
      ensures IsDigit(digits[i]) || digits[i] == '.'
    {
    }
    forall i | 0 <= i < |text|
      ensures IsDigit(text[i]) || text[i] == '-' || text[i] == '.'
    {
      if HasMinus(text) && i > 0 {
        assert text[i] == digits[i - 1];
      }
    }
  }

  lemma UnsignedStart(text: string)
    requires IsDecimalString(text)
    ensures !HasSign(Unsigned(text)) && WithoutSign(text) == Unsigned(text)
  {
    assert IntegerPart(text)[0] == Unsigned(text)[0];
  }

  /** On a plain decimal string the evaluator reads the same digits and the same places. */
  lemma ReadsDecimals(text: string)
    requires IsDecimalString(text)
    ensures Trim(text) == text && IsNumeral(text)
    ensures var p := ParsedOf(text); Read(text) == Numeral(p.sign == Negative, p.coefficient, p.scale, 0)
  {
    DecimalCharacters(text);
    UnsignedStart(text);
    var body := Unsigned(text);
    assert forall i :: 0 <= i < |body| ==> body[i] != 'e' && body[i] != 'E';
    NoExponentMark(body);
    assert Mantissa(body) == body;
    assert Whole(body) == IntegerPart(text) && Fraction(body) == FractionPart(text);
    assert ToNat("0") == 0 by { assert "0"[..0] == ""; }
    assert WithoutSign("0") == "0";
    assert Trim(text) == text by { NothingToTrim(text); }
  }

  lemma SameValueAsDecimal(text: string)
    requires IsDecimalString(text)
    ensures Readable(text) && PriceValue(text) == ValueOf(text)
  {
    hide Trim, IsNumeral, IsDecimalString, Read, ParsedOf, Scaled;
    ReadsDecimals(text);
  }

  /** The two comparators agree exactly on the pairs that are not zeros of different sign. */
  lemma ComparatorsAgree(left: string, right: string)
    requires IsDecimalString(left) && IsDecimalString(right)
    ensures CompareTexts(left, right) == Arithmetic.Compare(left, right)
       <==> !Arithmetic.SignedZeroPair(left, right)
  {
    hide IsDecimalString, Arithmetic.Compare, CompareTexts, ValueOf, PriceValue, ParsedOf, Readable;
    SameValueAsDecimal(left);
    SameValueAsDecimal(right);
    CompareTextsByValue(left, right);
    Arithmetic.CompareByValue(left, right);
    Arithmetic.ZeroValue(left);
    Arithmetic.ZeroValue(right);
  }

  /** The pair on which they differ. */
  lemma SignedZeroTellsThemApart()
    ensures IsDecimalString("-0") && IsDecimalString("0") && Arithmetic.SignedZeroPair("-0", "0")
    ensures CompareTexts("-0", "0") == Ok(0) && Arithmetic.Compare("-0", "0") == Ok(-1)
  {
    SpellZero();
    SpellParts("-", "0", "");
    SpellParts("", "0", "");
    hide IsDecimalString, CompareTexts, Arithmetic.Compare, PriceValue, Readable;
    SameValueAsDecimal("-0");
    SameValueAsDecimal("0");
    CompareTextsByValue("-0", "0");
    Arithmetic.ZeroValue("-0");
    Arithmetic.ZeroValue("0");
    Arithmetic.CompareByValue("-0", "0");
  }

  // ------------------------------------------------------ how often it can fire

  /** How many of the consecutive pairs of recorded prices are crossings. */
  function Crossings(direction: Direction, prices: seq<string>, target: string): nat {
    if |prices| < 2 then 0
    else
      var last := |prices| - 1;
      Crossings(direction, prices[..last], target)
      + (if HasCrossed(direction, Some(prices[last - 1]), prices[last], target) == Ok(true) then 1 else 0)
  }

  ghost predicate Reached(direction: Direction, price: string, target: string) {
    && Readable(price) && Readable(target)
    && (if direction == Sell then PriceValue(price) >= PriceValue(target) else PriceValue(price) <= PriceValue(target))
  }

  /** With target and direction fixed, n recorded prices allow at most floor(n/2) crossings. */
  lemma {:induction false} AtMostHalfCross(direction: Direction, prices: seq<string>, target: string)
    ensures 2 * Crossings(direction, prices, target) <= |prices|
    ensures prices != [] && !Reached(direction, prices[|prices| - 1], target) ==>
              2 * Crossings(direction, prices, target) < |prices|
  {
    hide HasCrossed, Readable, PriceValue;
    if |prices| >= 2 {
      var last := |prices| - 1;
      AtMostHalfCross(direction, prices[..last], target);
      CrossingIsWitnessed(direction, Some(prices[last - 1]), prices[last], target);
    }
  }
}
