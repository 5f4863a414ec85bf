/** Strings of decimal digits and the naturals they spell: what `BigInt(text)` and `toString()` do. */
module DigitStrings {
  import opened Naturals

  predicate IsDigit(c: char) {
    '0' <= c <= '9'
  }

  predicate AllDigits(s: string) {
    forall i :: 0 <= i < |s| ==> IsDigit(s[i])
  }

  function DigitValue(c: char): (v: nat)
    requires IsDigit(c)
    ensures v < 10
  {
    c as int - '0' as int
  }

  function DigitChar(v: nat): (c: char)
    requires v < 10
    ensures IsDigit(c) && DigitValue(c) == v
  {
    (v + '0' as int) as char
  }

  function ToNat(s: string): nat
    requires AllDigits(s)
  {
    if s == [] then 0 else 10 * ToNat(s[..|s| - 1]) + DigitValue(s[|s| - 1])
  }

  function FromNat(n: nat): (s: string)
    ensures AllDigits(s) && |s| > 0
  {
    if n < 10 then [DigitChar(n)] else FromNat(n / 10) + [DigitChar(n % 10)]
  }

  function Zeros(k: nat): (s: string)
    ensures |s| == k && AllDigits(s) && forall i :: 0 <= i < k ==> s[i] == '0'
  {
    seq(k, _ => '0')
  }

  /** `text.padStart(width, '0')`. */
  function PadStart(s: string, width: nat): (t: string)
    ensures AllDigits(s) ==> AllDigits(t)
    ensures |t| == Max(|s|, width)
  {
    if |s| < width then Zeros(width - |s|) + s else s
  }

  /** `text.replace(/0+$/, '')`. */
  function StripTrailingZeros(s: string): (t: string)
    ensures t <= s && s == t + Zeros(|s| - |t|)
    ensures t == "" || t[|t| - 1] != '0'
    ensures AllDigits(s) ==> AllDigits(t)
  {
    if s == "" || s[|s| - 1] != '0' then s
    else
      var t := StripTrailingZeros(s[..|s| - 1]);
      assert s == s[..|s| - 1] + "0";
      assert Zeros(|s| - |t|) == Zeros(|s| - 1 - |t|) + "0";
      t
  }

  lemma {:induction false} FromNatToNat(n: nat)
    ensures ToNat(FromNat(n)) == n
  {
    if n >= 10 {
      FromNatToNat(n / 10);
      var s := FromNat(n);
      assert s[..|s| - 1] == FromNat(n / 10);
    }
  }

  lemma ShiftTen(m: nat, p: nat)
    ensures 10 * (m * p) == m * (10 * p)
  {
  }

  lemma {:induction false} ToNatConcat(a: string, b: string)
    requires AllDigits(a) && AllDigits(b)
    ensures AllDigits(a + b) && ToNat(a + b) == ToNat(a) * Pow10(|b|) + ToNat(b)
  {
    if b == "" {
      assert a + b == a;
    } else {
      var b' := b[..|b| - 1];
      ToNatConcat(a, b');
      assert (a + b)[..|a + b| - 1] == a + b';
      assert Pow10(|b|) == 10 * Pow10(|b'|);
      ShiftTen(ToNat(a), Pow10(|b'|));
    }
  }

  lemma {:induction false} ZerosToNat(k: nat)
    ensures ToNat(Zeros(k)) == 0
  {
    if k > 0 {
      ZerosToNat(k - 1);
      assert Zeros(k)[..k - 1] == Zeros(k - 1);
    }
  }

  lemma PadStartToNat(s: string, width: nat)
    requires AllDigits(s)
    ensures ToNat(PadStart(s, width)) == ToNat(s)
  {
    if |s| < width {
      ZerosToNat(width - |s|);
      ToNatConcat(Zeros(width - |s|), s);
      assert 0 * Pow10(|s|) == 0;
    }
  }

  lemma {:induction false} FromNatNoLeadingZero(n: nat)
    ensures n > 0 ==> FromNat(n)[0] != '0'
    ensures n == 0 ==> FromNat(n) == "0"
    ensures n < 10 ==> |FromNat(n)| == 1
  {
    if n >= 10 {
      FromNatNoLeadingZero(n / 10);
    }
  }

  lemma FromNatSnoc(m: nat, v: nat)
    requires v < 10
    ensures m > 0 ==> FromNat(10 * m + v) == FromNat(m) + [DigitChar(v)]
    ensures m == 0 ==> FromNat(10 * m + v) == [DigitChar(v)]
  {
    assert (10 * m + v) / 10 == m && (10 * m + v) % 10 == v;
  }

  lemma PadStartSnoc(s: string, c: char, width: nat)
    ensures PadStart(s + [c], width + 1) == PadStart(s, width) + [c]
  {
  }

  lemma PadStartSingle(c: char, width: nat)
    requires width > 0
    ensures PadStart("0", width) == Zeros(width)
    ensures PadStart([c], width + 1) == Zeros(width) + [c]
  {
  }

  /** Padding the number a digit string spells to that string's own width gives the string back. */
  lemma {:induction false} PadStartRecovers(w: string)
    requires AllDigits(w) && |w| > 0
    ensures |FromNat(ToNat(w))| <= |w| && PadStart(FromNat(ToNat(w)), |w|) == w
  {
    var w', last := w[..|w| - 1], w[|w| - 1];
    var m := ToNat(w');
    assert w == w' + [last];
    assert DigitChar(DigitValue(last)) == last;
    FromNatSnoc(m, DigitValue(last));
    if |w| > 1 {
      PadStartRecovers(w');
      OneMoreDigit(w', last);
    }
  }

  lemma OneMoreDigit(w: string, last: char)
    requires AllDigits(w) && |w| > 0 && IsDigit(last) && AllDigits(w + [last])
    requires |FromNat(ToNat(w))| <= |w| && PadStart(FromNat(ToNat(w)), |w|) == w
    requires FromNat(ToNat(w + [last])) == if ToNat(w) == 0 then [last] else FromNat(ToNat(w)) + [last]
    ensures |FromNat(ToNat(w + [last]))| <= |w| + 1
    ensures PadStart(FromNat(ToNat(w + [last])), |w| + 1) == w + [last]
  {
    hide ToNat, FromNat;
    if ToNat(w) == 0 {
      ZeroText();
      PadStartSingle(last, |w|);
    } else {
      PadStartSnoc(FromNat(ToNat(w)), last, |w|);
    }
  }

  lemma ZeroText()
    ensures FromNat(0) == "0"
  {
    FromNatNoLeadingZero(0);
  }

  /** Without a redundant leading zero no padding is needed. */
  lemma ToNatFromNat(w: string)
    requires AllDigits(w) && |w| > 0 && (|w| == 1 || w[0] != '0')
    ensures FromNat(ToNat(w)) == w
  {
    var s := FromNat(ToNat(w));
    assert |s| < |w| ==> PadStart(s, |w|)[0] == '0';
    PadStartRecovers(w);
  }

  lemma {:induction false} LeadingDigitPositive(w: string)
    requires AllDigits(w) && |w| > 0 && w[0] != '0'
    ensures ToNat(w) > 0
  {
    if |w| == 1 {
      assert w[..0] == "";
    } else {
      LeadingDigitPositive(w[..|w| - 1]);
    }
  }

  lemma {:induction false} ToNatBound(w: string)
    requires AllDigits(w)
    ensures ToNat(w) < Pow10(|w|)
  {
    if w != "" {
      ToNatBound(w[..|w| - 1]);
    }
  }

  predicate AllZeros(w: string) {
    forall i :: 0 <= i < |w| ==> w[i] == '0'
  }

  lemma {:induction false} AllZerosToNat(w: string)
    requires AllDigits(w)
    ensures AllZeros(w) <==> ToNat(w) == 0
  {
    if w != "" {
      var w' := w[..|w| - 1];
      AllZerosToNat(w');
      assert w == w' + [w[|w| - 1]];
    }
  }

  /** Digits have the order of their characters; ten of them below ten leave each only its own value. */
  lemma DigitOrder(c: char, d: char)
    requires IsDigit(c) && IsDigit(d)
    ensures c < d <==> DigitValue(c) < DigitValue(d)
    ensures 0 <= DigitValue(c) <= 9
  {
  }

  /** Digit strings of one length have the order of the first characters in which they differ. */
  lemma FirstDifferenceDecides(s: string, t: string, i: nat)
    requires AllDigits(s) && AllDigits(t) && |s| == |t| && i < |s|
    requires s[..i] == t[..i] && s[i] < t[i]
    ensures ToNat(s) < ToNat(t)
  {
    hide ToNat, Pow10, DigitValue;
    var x, y := s[i + 1..], t[i + 1..];
    HeadAndTail(s, i);
    HeadAndTail(t, i);
    HeadsInOrder(s, t, i);
    ToNatBound(x);
    LeadingDecides(ToNat(s[..i + 1]), ToNat(t[..i + 1]), Pow10(|x|), ToNat(x), ToNat(y));
  }

  lemma HeadAndTail(s: string, i: nat)
    requires AllDigits(s) && i < |s|
    ensures ToNat(s) == ToNat(s[..i + 1]) * Pow10(|s[i + 1..]|) + ToNat(s[i + 1..])
  {
    hide ToNat, Pow10;
    assert s == s[..i + 1] + s[i + 1..];
    ToNatConcat(s[..i + 1], s[i + 1..]);
  }

  lemma HeadsInOrder(s: string, t: string, i: nat)
    requires AllDigits(s) && AllDigits(t) && i < |s| && i < |t|
    requires s[..i] == t[..i] && s[i] < t[i]
    ensures ToNat(s[..i + 1]) < ToNat(t[..i + 1])
  {
    assert s[..i + 1][..i] == s[..i] && t[..i + 1][..i] == t[..i];
    DigitOrder(s[i], t[i]);
    hide DigitValue;
  }

  lemma LeadingDecides(m: nat, n: nat, p: nat, x: nat, y: nat)
    requires m < n && x < p
    ensures m * p + x < n * p + y
  {
    assert (m + 1) * p <= n * p;
  }
}
