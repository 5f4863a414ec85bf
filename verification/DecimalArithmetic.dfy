/** Exact multiplication, summation, comparison and subtraction of decimal strings. */
module DecimalArithmetic {
  import opened Naturals
  import opened ScaledReals
  import opened Decimals

  // ------------------------------------------------------------- operations

  function MultiplyParsed(a: Parsed, b: Parsed): Result<string> {
    if a.sign == Negative || b.sign == Negative then Err(NegativeOperand)
    else Ok(Format(a.coefficient * b.coefficient, a.scale + b.scale, Positive))
  }

  predicate NonNegative(text: string) {
    IsDecimalString(text) && !HasMinus(text)
  }

  function Multiply(left: string, right: string): (r: Result<string>)
    ensures r.Ok? <==> NonNegative(left) && NonNegative(right)
  {
    var a :- Parse(left);
    var b :- Parse(right);
    MultiplyParsed(a, b)
  }

  function ParseAll(values: seq<string>): (r: Result<seq<Parsed>>)
    ensures r.Ok? <==> forall i :: 0 <= i < |values| ==> Parse(values[i]).Ok?
    ensures r.Ok? ==> |r.value| == |values| && forall i :: 0 <= i < |values| ==> Parse(values[i]) == Ok(r.value[i])
    ensures r.Err? ==> r.error == InvalidDecimal
  {
    if values == [] then Ok([])
    else
      var first :- Parse(values[0]);
      var rest :- ParseAll(values[1..]);
      Ok([first] + rest)
  }

  function MaxScale(ps: seq<Parsed>): (s: nat)
    ensures forall p :: p in ps ==> p.scale <= s
  {
    if ps == [] then 0 else Max(ps[0].scale, MaxScale(ps[1..]))
  }

  function AddUp(ps: seq<Parsed>, scale: nat): nat
    requires forall p :: p in ps ==> p.scale <= scale
  {
    if ps == [] then 0
    else ps[0].coefficient * Pow10(scale - ps[0].scale) + AddUp(ps[1..], scale)
  }

  function Sum(values: seq<string>): Result<string> {
    if values == [] then Err(EmptyList)
    else
      var ps :- ParseAll(values);
      if exists i :: 0 <= i < |ps| && ps[i].sign == Negative then Err(NegativeOperand)
      else Ok(Format(AddUp(ps, MaxScale(ps)), MaxScale(ps), Positive))
  }

  /** -1, 0 or 1; the sign is looked at before the magnitude, so "-0" comes below "0". */
  function CompareParsed(a: Parsed, b: Parsed): int {
    if a.sign != b.sign then (if a.sign == Negative then -1 else 1)
    else
      var scale := Max(a.scale, b.scale);
      var x := a.coefficient * Pow10(scale - a.scale);
      var y := b.coefficient * Pow10(scale - b.scale);
      if x < y then (if a.sign == Negative then 1 else -1)
      else if x > y then (if a.sign == Negative then -1 else 1)
      else 0
  }

  function Compare(left: string, right: string): Result<int> {
    var a :- Parse(left);
    var b :- Parse(right);
    Ok(CompareParsed(a, b))
  }

  function SubtractParsed(a: Parsed, b: Parsed): string {
    var scale := Max(a.scale, b.scale);
    var difference := Signed(a) * Pow10(scale - a.scale) - Signed(b) * Pow10(scale - b.scale);
    if difference < 0 then Format(0 - difference, scale, Negative)
    else Format(difference, scale, Positive)
  }

  function Subtract(left: string, right: string): Result<string> {
    var a :- Parse(left);
    var b :- Parse(right);
    Ok(SubtractParsed(a, b))
  }

  // ------------------------------------------------------- exactness

  predicate AllNonNegative(values: seq<string>) {
    forall i :: 0 <= i < |values| ==> NonNegative(values[i])
  }

  /** `ValueOf`, extended to every string so that it can be summed over any list. */
  ghost function Worth(text: string): real {
    if IsDecimalString(text) then ValueOf(text) else 0.0
  }

  ghost function Total<T>(xs: seq<T>, worth: T -> real): real {
    if xs == [] then 0.0 else worth(xs[0]) + Total(xs[1..], worth)
  }

  /** The canonical spelling of a decimal string. */
  function Normalize(text: string): string
    requires IsDecimalString(text)
  {
    var p := ParsedOf(text);
    Format(p.coefficient, p.scale, p.sign)
  }

  lemma NormalizeIsCanonical(text: string)
    requires IsDecimalString(text)
    ensures Canonical(Normalize(text)) && ValueOf(Normalize(text)) == ValueOf(text)
    ensures NonNegative(text) ==> NonNegative(Normalize(text))
  {
    var p := ParsedOf(text);
    FormatValue(p.coefficient, p.scale, p.sign);
    FormatParses(p.coefficient, p.scale, p.sign);
  }

  lemma ProductValue(a: Parsed, b: Parsed)
    requires a.sign == Positive && b.sign == Positive
    ensures MultiplyParsed(a, b).Ok?
    ensures var t := MultiplyParsed(a, b).value;
            Canonical(t) && NonNegative(t) && ValueOf(t) == Value(a) * Value(b)
  {
    hide Format, Scaled, Canonical, NonNegative, ParsedOf;
    PositiveFormat(a.coefficient * b.coefficient, a.scale + b.scale);
    ScaledMul(a.coefficient, a.scale, b.coefficient, b.scale);
  }

  lemma MultiplyIs(left: string, right: string)
    ensures Multiply(left, right).Ok? <==> NonNegative(left) && NonNegative(right)
    ensures Multiply(left, right) == Err(InvalidDecimal) <==> !(IsDecimalString(left) && IsDecimalString(right))
    ensures Multiply(left, right) == Err(NegativeOperand) <==>
              IsDecimalString(left) && IsDecimalString(right) && (HasMinus(left) || HasMinus(right))
    ensures NonNegative(left) && NonNegative(right) ==>
              Multiply(left, right) == MultiplyParsed(ParsedOf(left), ParsedOf(right))
    ensures NonNegative(left) ==> ParsedOf(left).sign == Positive
  {
    hide IsDecimalString, Format;
  }

  lemma MultiplyExact(left: string, right: string)
    ensures Multiply(left, right).Ok? <==> NonNegative(left) && NonNegative(right)
    ensures Multiply(left, right) == Err(InvalidDecimal) <==> !(IsDecimalString(left) && IsDecimalString(right))
    ensures Multiply(left, right) == Err(NegativeOperand) <==>
              IsDecimalString(left) && IsDecimalString(right) && (HasMinus(left) || HasMinus(right))
    ensures Multiply(left, right).Ok? ==>
              var t := Multiply(left, right).value;
              Canonical(t) && NonNegative(t) && ValueOf(t) == ValueOf(left) * ValueOf(right)
  {
    hide IsDecimalString, Value, Canonical, Multiply, MultiplyParsed, ParsedOf;
    MultiplyIs(left, right);
    if NonNegative(left) && NonNegative(right) {
      MultiplyIs(right, left);
      ProductValue(ParsedOf(left), ParsedOf(right));
    }
  }

  lemma PositiveFormat(coefficient: nat, scale: nat)
    ensures var t := Format(coefficient, scale, Positive);
            Canonical(t) && NonNegative(t) && ValueOf(t) == Scaled(coefficient, scale)
  {
    FormatValue(coefficient, scale, Positive);
    FormatParses(coefficient, scale, Positive);
  }

  lemma {:induction false} AddUpValue(ps: seq<Parsed>, scale: nat)
    requires forall p :: p in ps ==> p.scale <= scale && p.sign == Positive
    ensures Scaled(AddUp(ps, scale), scale) == Total(ps, Value)
  {
    if ps == [] {
      ScaledSign(0, scale);
    } else {
      AddUpValue(ps[1..], scale);
      Rescale(ps[0], scale);
      ScaledAdd(ps[0].coefficient * Pow10(scale - ps[0].scale), AddUp(ps[1..], scale), scale);
    }
  }

  lemma {:induction false} SameTotal<S, T>(xs: seq<S>, f: S -> real, ys: seq<T>, g: T -> real)
    requires |xs| == |ys| && forall i :: 0 <= i < |xs| ==> f(xs[i]) == g(ys[i])
    ensures Total(xs, f) == Total(ys, g)
  {
    if xs != [] {
      SameTotal(xs[1..], f, ys[1..], g);
    }
  }

  lemma SumAccepts(values: seq<string>)
    ensures Sum(values).Ok? <==> values != [] && AllNonNegative(values)
    ensures Sum(values).Err? ==>
              Sum(values).error == (if values == [] then EmptyList
                                    else if forall i :: 0 <= i < |values| ==> IsDecimalString(values[i]) then NegativeOperand
                                    else InvalidDecimal)
  {
    if values != [] && ParseAll(values).Ok? {
      var ps := ParseAll(values).value;
      forall i | 0 <= i < |ps|
        ensures ps[i].sign == Negative <==> HasMinus(values[i])
      {
        assert Parse(values[i]) == Ok(ps[i]);
      }
      if !AllNonNegative(values) {
        var i :| 0 <= i < |values| && !NonNegative(values[i]);
        assert ps[i].sign == Negative;
      }
    }
  }

  lemma SumExact(values: seq<string>)
    requires values != [] && AllNonNegative(values)
    ensures Sum(values).Ok?
    ensures var t := Sum(values).value; Canonical(t) && NonNegative(t) && ValueOf(t) == Total(values, Worth)
  {
    SumAccepts(values);
    var ps := ParseAll(values).value;
    var scale := MaxScale(ps);
    PositiveFormat(AddUp(ps, scale), scale);
    AddUpValue(ps, scale);
    forall i | 0 <= i < |values|
      ensures Worth(values[i]) == Value(ps[i])
    {
      assert Parse(values[i]) == Ok(ps[i]);
    }
    SameTotal(values, Worth, ps, Value);
  }

  lemma DifferenceValue(a: Parsed, b: Parsed, scale: nat)
    requires a.scale <= scale && b.scale <= scale
    ensures Scaled(Signed(a) * Pow10(scale - a.scale) - Signed(b) * Pow10(scale - b.scale), scale)
         == Value(a) - Value(b)
  {
    hide Scaled;
    Rescale(a, scale);
    Rescale(b, scale);
    ScaledAdd(Signed(a) * Pow10(scale - a.scale), Signed(b) * Pow10(scale - b.scale), scale);
  }

  lemma SignedFormat(n: int, scale: nat)
    ensures var t := if n < 0 then Format(0 - n, scale, Negative) else Format(n, scale, Positive);
            Canonical(t) && ValueOf(t) == Scaled(n, scale)
  {
    hide Format, Canonical, Scaled, ParsedOf, Value;
    if n < 0 {
      FormatValue(0 - n, scale, Negative);
    } else {
      FormatValue(n, scale, Positive);
    }
  }

  lemma SubtractParsedValue(a: Parsed, b: Parsed)
    ensures var t := SubtractParsed(a, b); Canonical(t) && ValueOf(t) == Value(a) - Value(b)
  {
    hide Format, Scaled, Canonical, ParsedOf;
    var scale := Max(a.scale, b.scale);
    DifferenceValue(a, b, scale);
    SignedFormat(Signed(a) * Pow10(scale - a.scale) - Signed(b) * Pow10(scale - b.scale), scale);
  }

  lemma SubtractExact(left: string, right: string)
    ensures Subtract(left, right).Ok? <==> IsDecimalString(left) && IsDecimalString(right)
    ensures Subtract(left, right).Err? ==> Subtract(left, right).error == InvalidDecimal
    ensures Subtract(left, right).Ok? ==>
              var t := Subtract(left, right).value;
              Canonical(t) && ValueOf(t) == ValueOf(left) - ValueOf(right)
  {
    hide IsDecimalString, SubtractParsed, Value, Canonical;
    if IsDecimalString(left) && IsDecimalString(right) {
      SubtractParsedValue(ParsedOf(left), ParsedOf(right));
    }
  }

  // ------------------------------------------------------------------ order

  function SignOf(x: real): int {
    if x < 0.0 then -1 else if x > 0.0 then 1 else 0
  }

  predicate IsZero(text: string)
    requires IsDecimalString(text)
  {
    ParsedOf(text).coefficient == 0
  }

  lemma ZeroValue(text: string)
    requires IsDecimalString(text)
    ensures IsZero(text) <==> ValueOf(text) == 0.0
    ensures ValueOf(text) > 0.0 ==> !HasMinus(text)
    ensures ValueOf(text) < 0.0 ==> HasMinus(text)
  {
    ScaledSign(Signed(ParsedOf(text)), ParsedOf(text).scale);
  }

  /** Two spellings of zero that differ in sign. */
  predicate SignedZeroPair(left: string, right: string)
    requires IsDecimalString(left) && IsDecimalString(right)
  {
    IsZero(left) && IsZero(right) && HasMinus(left) != HasMinus(right)
  }

  lemma OrderAtScale(p: Parsed, q: Parsed, scale: nat)
    requires p.scale <= scale && q.scale <= scale
    ensures Value(p) < Value(q) <==> Signed(p) * Pow10(scale - p.scale) < Signed(q) * Pow10(scale - q.scale)
    ensures Value(p) == Value(q) <==> Signed(p) * Pow10(scale - p.scale) == Signed(q) * Pow10(scale - q.scale)
  {
    Rescale(p, scale);
    Rescale(q, scale);
    ScaledOrder(Signed(p) * Pow10(scale - p.scale), Signed(q) * Pow10(scale - q.scale), scale);
  }

  lemma CompareParsedByValue(a: Parsed, b: Parsed)
    ensures CompareParsed(a, b) ==
              if a.coefficient == 0 && b.coefficient == 0 && a.sign != b.sign then (if a.sign == Negative then -1 else 1)
              else SignOf(Value(a) - Value(b))
  {
    hide Scaled, Pow10;
    var scale := Max(a.scale, b.scale);
    OrderAtScale(a, b, scale);
    WithSignTimes(a.sign, a.coefficient, Pow10(scale - a.scale));
    WithSignTimes(b.sign, b.coefficient, Pow10(scale - b.scale));
    ScaledSign(Signed(a), a.scale);
    ScaledSign(Signed(b), b.scale);
  }

  /** Comparison is comparison of values, except that a negative zero is below a positive one. */
  lemma CompareByValue(left: string, right: string)
    ensures Compare(left, right).Ok? <==> IsDecimalString(left) && IsDecimalString(right)
    ensures Compare(left, right).Err? ==> Compare(left, right).error == InvalidDecimal
    ensures Compare(left, right).Ok? ==>
              Compare(left, right).value ==
                if SignedZeroPair(left, right) then (if HasMinus(left) then -1 else 1)
                else SignOf(ValueOf(left) - ValueOf(right))
  {
    hide IsDecimalString, CompareParsed, Value;
    if IsDecimalString(left) && IsDecimalString(right) {
      CompareParsedByValue(ParsedOf(left), ParsedOf(right));
    }
  }

  /** The comparison is a total order: reflexive, antisymmetric and transitive. */
  lemma CompareIsTotalOrder(x: string, y: string, z: string)
    requires IsDecimalString(x) && IsDecimalString(y) && IsDecimalString(z)
    ensures Compare(x, x) == Ok(0)
    ensures Compare(x, y).Ok? && Compare(y, x).Ok? && Compare(y, z).Ok? && Compare(x, z).Ok?
    ensures Compare(x, y).value == -Compare(y, x).value
    ensures Compare(x, y).value <= 0 && Compare(y, z).value <= 0 ==> Compare(x, z).value <= 0
    ensures Compare(x, y) == Ok(0) <==> ValueOf(x) == ValueOf(y) && !SignedZeroPair(x, y)
  {
    hide IsDecimalString, Compare, Value, ParsedOf;
    CompareByValue(x, x);
    CompareByValue(x, y);
    CompareByValue(y, x);
    CompareByValue(y, z);
    CompareByValue(x, z);
    ZeroValue(x);
    ZeroValue(y);
    ZeroValue(z);
  }

  // ---------------------------------------------------------------- algebra

  lemma {:induction false} TotalConcat<T>(xs: seq<T>, ys: seq<T>, f: T -> real)
    ensures Total(xs + ys, f) == Total(xs, f) + Total(ys, f)
  {
    if xs == [] {
      assert xs + ys == ys;
    } else {
      TotalConcat(xs[1..], ys, f);
      assert (xs + ys)[1..] == xs[1..] + ys;
    }
  }

  /** A total does not depend on the order of its terms. */
  lemma {:induction false} TotalOfPermutation<T>(xs: seq<T>, ys: seq<T>, f: T -> real)
    requires multiset(xs) == multiset(ys)
    ensures Total(xs, f) == Total(ys, f)
    decreases |xs|
  {
    if xs == [] {
      assert |multiset(ys)| == 0;
    } else {
      var v := xs[0];
      assert xs == [v] + xs[1..];
      assert v in multiset(ys);
      var i :| 0 <= i < |ys| && ys[i] == v;
      var before, after := ys[..i], ys[i + 1..];
      assert ys == before + ([v] + after);
      assert multiset(before + after) == multiset(ys) - multiset{v};
      assert multiset(xs[1..]) == multiset(xs) - multiset{v};
      TotalOfPermutation(xs[1..], before + after, f);
      TotalConcat(before, after, f);
      TotalConcat(before, [v] + after, f);
      assert ([v] + after)[1..] == after;
    }
  }

  lemma SameElements<T>(xs: seq<T>, ys: seq<T>)
    requires multiset(xs) == multiset(ys)
    ensures |xs| == |ys|
    ensures forall i :: 0 <= i < |xs| ==> exists j :: 0 <= j < |ys| && ys[j] == xs[i]
  {
    assert |multiset(xs)| == |xs| && |multiset(ys)| == |ys|;
    forall i | 0 <= i < |xs|
      ensures exists j :: 0 <= j < |ys| && ys[j] == xs[i]
    {
      assert xs[i] in multiset(xs);
      assert xs[i] in ys;
    }
  }

  /** Reordering the operands changes nothing, not even which error is thrown. */
  lemma SumOrderIndependent(xs: seq<string>, ys: seq<string>)
    requires multiset(xs) == multiset(ys)
    ensures Sum(xs) == Sum(ys)
  {
    hide IsDecimalString, Sum;
    SameElements(xs, ys);
    SameElements(ys, xs);
    SumAccepts(xs);
    SumAccepts(ys);
    if xs != [] && AllNonNegative(xs) {
      assert AllNonNegative(ys);
      SumExact(xs);
      SumExact(ys);
      TotalOfPermutation(xs, ys, Worth);
      EqualTextIffEqualValue(Sum(xs).value, Sum(ys).value);
    }
  }

  function MultiplyEach(x: string, values: seq<string>): (products: seq<string>)
    requires NonNegative(x) && AllNonNegative(values)
    ensures |products| == |values|
    ensures forall i :: 0 <= i < |values| ==> Multiply(x, values[i]) == Ok(products[i])
  {
    if values == [] then []
    else [Multiply(x, values[0]).value] + MultiplyEach(x, values[1..])
  }

  lemma {:induction false} TotalScaled<S, T>(k: real, xs: seq<S>, f: S -> real, ys: seq<T>, g: T -> real)
    requires |xs| == |ys| && forall i :: 0 <= i < |xs| ==> g(ys[i]) == k * f(xs[i])
    ensures Total(ys, g) == k * Total(xs, f)
  {
    if xs != [] {
      TotalScaled(k, xs[1..], f, ys[1..], g);
      Distribute(k, f(xs[0]), Total(xs[1..], f));
    }
  }

  lemma Distribute(k: real, x: real, y: real)
    ensures k * (x + y) == k * x + k * y
  {
  }

  lemma ProductWorth(x: string, y: string)
    requires NonNegative(x) && NonNegative(y)
    ensures Multiply(x, y).Ok? && NonNegative(Multiply(x, y).value)
    ensures Worth(Multiply(x, y).value) == Worth(x) * Worth(y)
  {
    hide Multiply, ParsedOf, Value, Canonical, IsDecimalString;
    MultiplyExact(x, y);
  }

  lemma TotalOfProducts(x: string, values: seq<string>)
    requires NonNegative(x) && AllNonNegative(values)
    ensures AllNonNegative(MultiplyEach(x, values))
    ensures Total(MultiplyEach(x, values), Worth) == Worth(x) * Total(values, Worth)
  {
    hide IsDecimalString, Multiply, ParsedOf, Canonical, Total, Value;
    var products := MultiplyEach(x, values);
    forall i | 0 <= i < |values|
      ensures NonNegative(products[i]) && Worth(products[i]) == Worth(x) * Worth(values[i])
    {
      ProductWorth(x, values[i]);
    }
    ScaledTotal(Worth(x), values, products);
  }

  lemma ScaledTotal(k: real, values: seq<string>, products: seq<string>)
    requires |values| == |products| && forall i :: 0 <= i < |values| ==> Worth(products[i]) == k * Worth(values[i])
    ensures Total(products, Worth) == k * Total(values, Worth)
  {
    hide Worth, Total;
    TotalScaled(k, values, Worth, products, Worth);
  }

  /** Multiplication distributes over summation, as equality of strings. */
  lemma MultiplyDistributesOverSum(x: string, values: seq<string>)
    requires NonNegative(x) && AllNonNegative(values) && values != []
    ensures Sum(values).Ok?
    ensures Multiply(x, Sum(values).value) == Sum(MultiplyEach(x, values))
  {
    hide IsDecimalString, Multiply, Sum, ParsedOf, Value, Total;
    var products := MultiplyEach(x, values);
    SumExact(values);
    TotalOfProducts(x, values);
    SumExact(products);
    MultiplyExact(x, Sum(values).value);
    EqualTextIffEqualValue(Multiply(x, Sum(values).value).value, Sum(products).value);
  }

  lemma PairTotal(x: string, y: string)
    ensures Total([x, y], Worth) == Worth(x) + Worth(y)
  {
    assert [x, y][1..] == [y];
    assert Total([y], Worth) == Worth(y);
  }

  /** Subtracting one summand from a two-term sum returns the other in canonical form. */
  lemma SubtractUndoesSum(x: string, y: string)
    requires NonNegative(x) && NonNegative(y)
    ensures Sum([x, y]).Ok?
    ensures Subtract(Sum([x, y]).value, y) == Ok(Normalize(x))
    ensures Subtract(Sum([x, y]).value, x) == Ok(Normalize(y))
  {
    hide IsDecimalString, Subtract, Sum, Value, ParsedOf, Normalize, Total;
    SumExact([x, y]);
    PairTotal(x, y);
    SubtractToNormal(Sum([x, y]).value, y, x);
    SubtractToNormal(Sum([x, y]).value, x, y);
  }

  lemma SubtractToNormal(total: string, part: string, rest: string)
    requires IsDecimalString(total) && IsDecimalString(part) && IsDecimalString(rest)
    requires ValueOf(total) == ValueOf(part) + ValueOf(rest)
    ensures Subtract(total, part) == Ok(Normalize(rest))
  {
    hide IsDecimalString, Subtract, Value, ParsedOf;
    SubtractExact(total, part);
    NormalizeIsCanonical(rest);
    EqualTextIffEqualValue(Subtract(total, part).value, Normalize(rest));
  }
}
