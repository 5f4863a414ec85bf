/** Powers, divisibility and Euclid: the number theory behind exact decimal division. */
module Naturals {

  function Pow(b: nat, e: nat): (p: nat)
    ensures b > 0 ==> p > 0
  {
    if e == 0 then 1 else b * Pow(b, e - 1)
  }

  function Pow10(e: nat): (p: nat)
    ensures p > 0
  {
    Pow(10, e)
  }

  lemma MulAssoc(x: int, y: int, z: int)
    ensures x * (y * z) == (x * y) * z
  {
  }

  lemma {:induction false} PowAdd(b: nat, x: nat, y: nat)
    ensures Pow(b, x + y) == Pow(b, x) * Pow(b, y)
  {
    if x != 0 {
      PowAdd(b, x - 1, y);
      MulAssoc(b, Pow(b, x - 1), Pow(b, y));
    }
  }

  lemma Pow10Add(x: nat, y: nat)
    ensures Pow10(x + y) == Pow10(x) * Pow10(y)
  {
    PowAdd(10, x, y);
  }

  lemma {:induction false} Pow10Factors(e: nat)
    ensures Pow10(e) == Pow(2, e) * Pow(5, e)
  {
    if e != 0 {
      Pow10Factors(e - 1);
      var t, f := Pow(2, e - 1), Pow(5, e - 1);
      assert Pow10(e) == 10 * Pow10(e - 1);
      assert 10 * (t * f) == (2 * t) * (5 * f);
    }
  }

  function Max(x: nat, y: nat): nat {
    if x < y then y else x
  }

  ghost predicate Divides(d: nat, n: nat) {
    exists k: nat :: n == d * k
  }

  lemma DividesBy(d: nat, n: nat, k: nat)
    requires n == d * k
    ensures Divides(d, n)
  {
  }

  lemma DividesSum(d: nat, m: nat, n: nat)
    requires Divides(d, m) && Divides(d, n)
    ensures Divides(d, m + n)
  {
    var i: nat :| m == d * i;
    var j: nat :| n == d * j;
    assert m + n == d * (i + j);
  }

  lemma DividesProduct(d: nat, m: nat, n: nat)
    requires Divides(d, m)
    ensures Divides(d, m * n) && Divides(d, n * m)
  {
    var i: nat :| m == d * i;
    assert m * n == d * (i * n);
    assert n * m == d * (i * n);
  }

  /** Euclid's recursion, which the loop in the division routine follows step by step. */
  function Gcd(a: nat, b: nat): (g: nat)
    ensures a + b > 0 ==> g > 0
    decreases b
  {
    if b == 0 then a else Gcd(b, a % b)
  }

  lemma Quotient(a: nat, b: nat) returns (q: nat, r: nat)
    requires b > 0
    ensures q == a / b && r == a % b && a == b * q + r
  {
    q, r := a / b, a % b;
  }

  lemma DividesRemainder(g: nat, a: nat, b: nat, q: nat, r: nat)
    requires a == b * q + r && Divides(g, b) && Divides(g, r)
    ensures Divides(g, a)
  {
    DividesProduct(g, b, q);
    DividesSum(g, b * q, r);
  }

  lemma {:induction false} GcdDivides(a: nat, b: nat)
    ensures Divides(Gcd(a, b), a) && Divides(Gcd(a, b), b)
    decreases b
  {
    var g := Gcd(a, b);
    if b == 0 {
      DividesBy(g, a, 1);
      DividesBy(g, b, 0);
    } else {
      hide Divides;
      var q, r := Quotient(a, b);
      GcdDivides(b, r);
      DividesRemainder(g, a, b, q, r);
    }
  }

  /** Bezout: Euclid's result is an integer combination of its arguments. */
  lemma {:induction false} Bezout(a: nat, b: nat) returns (x: int, y: int)
    ensures a * x + b * y == Gcd(a, b)
    decreases b
  {
    if b == 0 {
      x, y := 1, 0;
    } else {
      var u, v := Bezout(b, a % b);
      x, y := v, u - (a / b) * v;
      BezoutStep(a, b, a / b, a % b, u, v);
    }
  }

  lemma BezoutStep(a: int, b: int, q: int, r: int, u: int, v: int)
    requires a == b * q + r
    ensures a * v + b * (u - q * v) == b * u + r * v
  {
    MulAssoc(b, q, v);
    assert b * (u - q * v) == b * u - b * (q * v);
    assert (b * q + r) * v == (b * q) * v + r * v;
  }

  lemma Combine(g: int, i: int, x: int, j: int, y: int)
    ensures (g * i) * x + (g * j) * y == g * (i * x + j * y)
  {
    assert (g * i) * x == g * (i * x);
    assert (g * j) * y == g * (j * y);
  }

  /** Every common divisor divides Euclid's result, so it is the greatest one. */
  lemma GcdIsGreatest(a: nat, b: nat, d: nat)
    requires a + b > 0
    requires Divides(d, a) && Divides(d, b)
    ensures d <= Gcd(a, b) && Divides(d, Gcd(a, b))
  {
    var x, y := Bezout(a, b);
    var i: nat :| a == d * i;
    var j: nat :| b == d * j;
    var k := i * x + j * y;
    Combine(d, i, x, j, y);
    if k <= 0 {
      MulMonotone(d, k, 0);
      assert false;
    }
    DividesBy(d, Gcd(a, b), k);
    MulMonotone(d, 1, k);
  }

  /** Both arguments are multiples of their gcd. */
  lemma GcdQuotients(a: nat, b: nat)
    requires b > 0
    ensures a == a / Gcd(a, b) * Gcd(a, b) && b == b / Gcd(a, b) * Gcd(a, b)
    ensures b / Gcd(a, b) > 0
  {
    var g := Gcd(a, b);
    GcdDivides(a, b);
    var i: nat :| a == g * i;
    var j: nat :| b == g * j;
    ExactQuotient(a, g, i);
    ExactQuotient(b, g, j);
  }

  /** Dividing both sides of a fraction by their gcd leaves Bezout coefficients for 1. */
  lemma ReducedIsCoprime(a: nat, b: nat) returns (x: int, y: int)
    requires b > 0
    ensures a / Gcd(a, b) * x + b / Gcd(a, b) * y == 1
  {
    hide Gcd;
    var g := Gcd(a, b);
    GcdQuotients(a, b);
    var i, j := a / g, b / g;
    x, y := Bezout(a, b);
    Combine(g, i, x, j, y);
    CancelFactor(g, i * x + j * y, 1);
  }

  /** A smaller multiplier leaves the product at least one multiple short. */
  lemma MulStep(d: nat, x: int, y: int)
    requires x < y
    ensures d * x + d <= d * y
  {
    assert d * (y - x - 1) >= 0;
    assert d * (y - x - 1) == d * y - d * x - d;
  }

  lemma MulMonotone(d: nat, x: int, y: int)
    requires x <= y
    ensures d * x <= d * y
  {
    if x < y { MulStep(d, x, y); }
  }

  lemma CancelFactor(g: nat, m: int, n: int)
    requires g > 0 && g * m == g * n
    ensures m == n
  {
    if m < n {
      MulStep(g, m, n);
    } else if n < m {
      MulStep(g, n, m);
    }
  }

  lemma ExactQuotient(n: nat, d: nat, k: nat)
    requires d > 0 && n == d * k
    ensures n / d == k && n % d == 0
  {
    QuotientUnique(n, d, k, 0);
  }

  lemma QuotientUnique(n: nat, d: nat, q: nat, r: nat)
    requires d > 0 && n == d * q + r && r < d
    ensures n / d == q && n % d == r
  {
    var p := n / d;
    assert n == d * p + n % d;
    if p < q {
      MulStep(d, p, q);
    } else if q < p {
      MulStep(d, q, p);
    }
  }

  /** Gauss: a divisor coprime to one factor of a product divides the other. */
  lemma Gauss(n: nat, d: nat, m: nat, k: nat, x: int, y: int)
    requires d > 0
    requires n * x + d * y == 1 && n * m == d * k
    ensures Divides(d, m)
  {
    var q := k * x + m * y;
    calc {
      m;
      m * (n * x + d * y);
      { assert m * (n * x) == (n * m) * x; assert m * (d * y) == d * (m * y); }
      (n * m) * x + d * (m * y);
      { assert (d * k) * x == d * (k * x); }
      d * (k * x) + d * (m * y);
      d * q;
    }
    if q < 0 {
      MulStep(d, q, 0);
      assert false;
    }
    DividesBy(d, m, q);
  }

  /** Strips every factor `p` from `n`: what is left, and how many were removed. */
  function Strip(n: nat, p: nat): (r: (nat, nat))
    requires n > 0 && p > 1
    ensures r.0 > 0 && r.0 % p != 0
    ensures n == Pow(p, r.1) * r.0
    decreases n
  {
    if n % p != 0 then (n, 0)
    else
      StripDecreases(n, p);
      var (rest, count) := Strip(n / p, p);
      assert n == p * (n / p);
      MulAssoc(p, Pow(p, count), rest);
      (rest, count + 1)
  }

  lemma StripDecreases(n: nat, p: nat)
    requires n > 0 && p > 1 && n % p == 0
    ensures 0 < n / p < n
  {
    var q := n / p;
    assert n == p * q;
    if q >= n {
      assert n * p == p * n;
      MulStep(n, 1, p);
      MulMonotone(p, n, q);
    }
  }

  /** Stripping one prime leaves indivisibility by another number untouched. */
  lemma StripKeepsIndivisible(n: nat, p: nat, d: nat)
    requires n > 0 && p > 1 && d > 0 && n % d != 0
    ensures Strip(n, p).0 % d != 0
  {
    var (rest, count) := Strip(n, p);
    if rest % d == 0 {
      var k := rest / d;
      assert rest == d * k;
      assert n == d * (Pow(p, count) * k) by {
        assert Pow(p, count) * (d * k) == d * (Pow(p, count) * k);
      }
      ExactQuotient(n, d, Pow(p, count) * k);
    }
  }

  lemma OddTimes(i: nat, n: nat)
    ensures (2 * i + 1) * n == 2 * (i * n) + n
  {
  }

  lemma PrimeTwo(m: nat, n: nat)
    requires (m * n) % 2 == 0 && m % 2 != 0
    ensures n % 2 == 0
  {
    OddTimes(m / 2, n);
  }

  lemma PrimeFive(m: nat, n: nat)
    requires (m * n) % 5 == 0 && m % 5 != 0
    ensures n % 5 == 0
  {
    var i, r := m / 5, m % 5;
    FiveTimes(i, r, n);
    DropFives(m * n, i * n, r * n);
    FiveResidue(r, n);
  }

  lemma DropFives(total: nat, a: nat, b: nat)
    requires total == 5 * a + b && total % 5 == 0
    ensures b % 5 == 0
  {
  }

  lemma FiveResidue(r: nat, n: nat)
    requires 1 <= r <= 4 && (r * n) % 5 == 0
    ensures n % 5 == 0
  {
    if r == 1 {
      assert r * n == n;
    } else if r == 2 {
      assert r * n == 2 * n;
    } else if r == 3 {
      assert r * n == 3 * n;
    } else {
      assert r * n == 4 * n;
    }
  }

  lemma FiveTimes(i: nat, r: nat, n: nat)
    ensures (5 * i + r) * n == 5 * (i * n) + r * n
  {
  }

  lemma EvenlyTen(n: nat, p: nat)
    requires n == 10 * p
    ensures n % 2 == 0 && n % 5 == 0
  {
    TwiceIsEven(5 * p);
    FiveTimesDivides(2 * p);
  }

  lemma TwiceIsEven(k: nat)
    ensures 2 * k % 2 == 0
  {
  }

  lemma FiveTimesDivides(k: nat)
    ensures 5 * k % 5 == 0
  {
  }

  lemma TenFromTwoAndFive(q: nat) returns (t: nat)
    requires q % 2 == 0 && q % 5 == 0
    ensures q == 10 * t
  {
    t := q / 10;
  }

  /** A divisor of a power of ten with no factor 2 or 5 is 1. */
  lemma {:induction false} CoprimeToTenDividesOne(rest: nat, q: nat, k: nat)
    requires rest % 2 != 0 && rest % 5 != 0
    requires rest * q == Pow10(k)
    ensures rest == 1
    decreases k
  {
    if k == 0 {
      if q > 0 { MulMonotone(rest, 1, q); }
    } else {
      var p := Pow10(k - 1);
      assert Pow10(k) == 10 * p;
      EvenlyTen(rest * q, p);
      PrimeTwo(rest, q);
      PrimeFive(rest, q);
      var t := TenFromTwoAndFive(q);
      assert rest * (10 * t) == 10 * (rest * t);
      CoprimeToTenDividesOne(rest, t, k - 1);
    }
  }

  lemma Shuffle(a: int, b: int, c: int, d: int)
    ensures (a * b) * (c * d) == (a * c) * (b * d)
  {
    calc {
      (a * b) * (c * d);
      a * (b * (c * d));
      { assert b * (c * d) == c * (b * d); }
      a * (c * (b * d));
      (a * c) * (b * d);
    }
  }

  /** A number made of `t` twos and `f` fives divides 10 to the larger of the two counts. */
  lemma TwosAndFivesDividePowerOfTen(t: nat, f: nat) returns (k: nat)
    ensures Pow(2, t) * Pow(5, f) * k == Pow10(Max(t, f))
  {
    var s := Max(t, f);
    Pow10Factors(s);
    PowAdd(2, t, s - t);
    PowAdd(5, f, s - f);
    k := Pow(2, s - t) * Pow(5, s - f);
    Shuffle(Pow(2, t), Pow(2, s - t), Pow(5, f), Pow(5, s - f));
  }
}
