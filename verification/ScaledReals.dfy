/** The number a coefficient and a decimal scale denote: `Scaled(n, s)` is n shifted `s` places right of the dot. */
module ScaledReals {
  import opened Naturals

  ghost function Scaled(n: int, scale: nat): real {
    if scale == 0 then n as real else Scaled(n, scale - 1) / 10.0
  }

  lemma {:induction false} ScaledSign(n: int, scale: nat)
    ensures Scaled(n, scale) > 0.0 <==> n > 0
    ensures Scaled(n, scale) == 0.0 <==> n == 0
    ensures Scaled(n, scale) < 0.0 <==> n < 0
  {
    if scale > 0 { ScaledSign(n, scale - 1); }
  }

  lemma {:induction false} ScaledAdd(n: int, m: int, scale: nat)
    ensures Scaled(n, scale) + Scaled(m, scale) == Scaled(n + m, scale)
    ensures Scaled(n, scale) - Scaled(m, scale) == Scaled(n - m, scale)
  {
    if scale > 0 { ScaledAdd(n, m, scale - 1); }
  }

  /** At one scale, numbers compare as their coefficients do. */
  lemma ScaledOrder(n: int, m: int, scale: nat)
    ensures Scaled(n, scale) < Scaled(m, scale) <==> n < m
    ensures Scaled(n, scale) == Scaled(m, scale) <==> n == m
  {
    ScaledAdd(n, m, scale);
    ScaledSign(n - m, scale);
  }

  lemma {:induction false} ScaledTen(n: int, scale: nat)
    ensures Scaled(10 * n, scale + 1) == Scaled(n, scale)
  {
    if scale > 0 { ScaledTen(n, scale - 1); }
  }

  /** Zeros appended to the coefficient and counted in the scale change nothing. */
  lemma {:induction false} ScaledShift(n: int, scale: nat, k: nat)
    ensures Scaled(n * Pow10(k), scale + k) == Scaled(n, scale)
  {
    if k > 0 {
      ScaledShift(n, scale, k - 1);
      ScaledTen(n * Pow10(k - 1), scale + k - 1);
      assert n * (10 * Pow10(k - 1)) == 10 * (n * Pow10(k - 1));
    }
  }

  lemma {:induction false} CastProduct(m: int, n: int)
    ensures (m * n) as real == m as real * n as real
    decreases if n < 0 then -n else n
  {
    if n > 0 {
      CastProduct(m, n - 1);
      assert m * n == m * (n - 1) + m;
      assert m as real * n as real == m as real * (n - 1) as real + m as real;
    } else if n < 0 {
      CastProduct(m, n + 1);
      assert m * n == m * (n + 1) - m;
      assert m as real * n as real == m as real * (n + 1) as real - m as real;
    }
  }

  lemma TenthOfProduct(x: real, y: real)
    ensures (x / 10.0) * y == (x * y) / 10.0
    ensures y * (x / 10.0) == (y * x) / 10.0
  {
  }

  lemma {:induction false} ScaledMul(n: int, s: nat, m: int, t: nat)
    ensures Scaled(n, s) * Scaled(m, t) == Scaled(n * m, s + t)
  {
    if s > 0 {
      ScaledMul(n, s - 1, m, t);
      TenthOfProduct(Scaled(n, s - 1), Scaled(m, t));
    } else if t > 0 {
      ScaledMul(n, s, m, t - 1);
      TenthOfProduct(Scaled(m, t - 1), Scaled(n, s));
    } else {
      CastProduct(n, m);
    }
  }

  /** Shifting back gives the coefficient. */
  lemma {:induction false} ScaledTimesPower(n: int, scale: nat)
    ensures Scaled(n, scale) * Pow10(scale) as real == n as real
  {
    if scale > 0 {
      var x, p := Scaled(n, scale - 1), Pow10(scale - 1) as real;
      ScaledTimesPower(n, scale - 1);
      TenthOfProduct(x, 10.0 * p);
      TenthOfProduct(10.0 * x, p);
      assert x * (10.0 * p) == (10.0 * x) * p;
      assert (10.0 * x) / 10.0 == x;
    }
  }

  lemma Associate(x: real, y: real, z: real)
    ensures x * (y * z) == (x * y) * z
  {
  }
}
