/** Rounding, powers and geometric sums: the arithmetic every money computation rests on. */
module RealMath {

  /** JavaScript's Math.round: the nearest integer, half-way cases going up. */
  function Round(x: real): int {
    (x + 0.5).Floor
  }

  function Max(a: int, b: int): int {
    if a < b then b else a
  }

  function Abs(x: real): real {
    if x < 0.0 then -x else x
  }

  lemma RoundIsNear(x: real)
    ensures Abs(Round(x) as real - x) <= 0.5
  {
  }

  lemma RoundIsMonotone(x: real, y: real)
    requires x <= y
    ensures Round(x) <= Round(y)
  {
  }

  /** Adding a whole number commutes with rounding. */
  lemma RoundShifts(x: real, k: int)
    ensures Round(x + k as real) == Round(x) + k
  {
  }

  function Pow(b: real, n: nat): real {
    if n == 0 then 1.0 else b * Pow(b, n - 1)
  }

  /** 1 + g + ... + g^(n-1), in Horner form. */
  function Geo(g: real, n: nat): real {
    if n == 0 then 0.0 else g * Geo(g, n - 1) + 1.0
  }

  lemma {:induction false} GeoClosedForm(g: real, n: nat)
    ensures (g - 1.0) * Geo(g, n) == Pow(g, n) - 1.0
  {
    if n > 0 {
      GeoClosedForm(g, n - 1);
      calc {
        (g - 1.0) * Geo(g, n);
        g * ((g - 1.0) * Geo(g, n - 1)) + (g - 1.0);
        g * (Pow(g, n - 1) - 1.0) + (g - 1.0);
      }
    }
  }

  lemma MulMonotone(a: real, b: real, c: real)
    requires a <= b && 0.0 <= c
    ensures a * c <= b * c
  {
  }

  lemma MulStrictlyMonotone(a: real, b: real, c: real)
    requires a < b && 0.0 < c
    ensures a * c < b * c
  {
  }

  lemma MulDiv(x: real, d: real)
    requires d != 0.0
    ensures x * d / d == x
    ensures x / d * d == x
  {
  }

  lemma {:induction false} PowPositive(b: real, n: nat)
    requires 0.0 < b
    ensures 0.0 < Pow(b, n)
  {
    if n > 0 {
      PowPositive(b, n - 1);
    }
  }

  lemma {:induction false} PowOfOne(n: nat)
    ensures Pow(1.0, n) == 1.0
  {
    if n > 0 {
      PowOfOne(n - 1);
    }
  }

  lemma {:induction false} PowMonotone(a: real, b: real, n: nat)
    requires 0.0 < a <= b
    ensures Pow(a, n) <= Pow(b, n)
  {
    if n > 0 {
      PowMonotone(a, b, n - 1);
      PowPositive(b, n - 1);
      MulMonotone(a, b, Pow(b, n - 1));
      MulMonotone(Pow(a, n - 1), Pow(b, n - 1), a);
    }
  }

  lemma PowStrictlyMonotone(a: real, b: real, n: nat)
    requires 0.0 < a < b && 1 <= n
    ensures Pow(a, n) < Pow(b, n)
  {
    PowMonotone(a, b, n - 1);
    PowPositive(b, n - 1);
    MulStrictlyMonotone(a, b, Pow(b, n - 1));
    MulMonotone(Pow(a, n - 1), Pow(b, n - 1), a);
  }

  /** Positive n-th roots are unique. */
  lemma RootIsUnique(a: real, b: real, n: nat)
    requires 0.0 < a && 0.0 < b && 1 <= n
    requires Pow(a, n) == Pow(b, n)
    ensures a == b
  {
    if a < b {
      PowStrictlyMonotone(a, b, n);
    } else if b < a {
      PowStrictlyMonotone(b, a, n);
    }
  }

  lemma {:induction false} PowOfProduct(a: real, b: real, product: real, n: nat)
    requires product == a * b
    ensures Pow(product, n) == Pow(a, n) * Pow(b, n)
  {
    if n > 0 {
      PowOfProduct(a, b, product, n - 1);
      var p, q := Pow(a, n - 1), Pow(b, n - 1);
      calc {
        Pow(product, n);
        (a * b) * (p * q);
        (a * p) * (b * q);
      }
    }
  }

  // ---- Products by name: the solver keeps Mul(a, b) whole where it would multiply a * b out -----------

  function Mul(a: real, b: real): real {
    a * b
  }

  lemma MulIsMonotone(a: real, b: real, c: real)
    requires a <= b && 0.0 <= c
    ensures Mul(a, c) <= Mul(b, c)
  {
  }

  lemma MulIsStrictlyMonotone(a: real, b: real, c: real)
    requires a < b && 0.0 < c
    ensures Mul(a, c) < Mul(b, c)
  {
  }

  lemma MulCommutes(a: real, b: real)
    ensures Mul(a, b) == Mul(b, a)
  {
  }

  lemma MulAssociates(a: real, b: real, c: real)
    ensures Mul(Mul(a, b), c) == Mul(a, Mul(b, c))
  {
  }

  lemma MulSign(a: real, b: real)
    requires 0.0 <= a && 0.0 <= b
    ensures 0.0 <= Mul(a, b)
    ensures 0.0 < a && 0.0 < b ==> 0.0 < Mul(a, b)
  {
  }

  lemma MulCancels(a: real, b: real, c: real)
    requires c != 0.0
    ensures Mul(a, c) == Mul(b, c) <==> a == b
  {
    MulDiv(a, c);
    MulDiv(b, c);
  }

  lemma SquareSign(h: real)
    ensures 0.0 <= Mul(h, h)
    ensures h != 0.0 ==> 0.0 < Mul(h, h)
  {
    if 0.0 <= h {
      MulSign(h, h);
    } else {
      MulSign(-h, -h);
      MulNegated(h, h);
    }
  }

  lemma MulNegated(a: real, b: real)
    ensures Mul(-a, -b) == Mul(a, b)
  {
  }

  /** Bernoulli's inequality, strict once the exponent is at least two. */
  lemma {:induction false} Bernoulli(h: real, n: nat)
    requires -1.0 < h
    ensures 1.0 + Mul(n as real, h) <= Pow(1.0 + h, n)
    ensures h != 0.0 && 2 <= n ==> 1.0 + Mul(n as real, h) < Pow(1.0 + h, n)
  {
    if n > 0 {
      Bernoulli(h, n - 1);
      BernoulliStep((n - 1) as real, h, Pow(1.0 + h, n - 1));
      assert (n - 1) as real + 1.0 == n as real;
      PowUnfolds(1.0 + h, n);
    }
  }

  lemma PowUnfolds(x: real, n: nat)
    requires 1 <= n
    ensures Pow(x, n) == Mul(Pow(x, n - 1), x)
  {
  }

  /** The loss of one Bernoulli step is m times a square. */
  lemma BernoulliExpands(m: real, h: real)
    ensures Mul(1.0 + Mul(m, h), 1.0 + h) == 1.0 + Mul(m + 1.0, h) + Mul(m, Mul(h, h))
  {
  }

  lemma BernoulliStep(m: real, h: real, q: real)
    requires -1.0 < h && 0.0 <= m && 1.0 + Mul(m, h) <= q
    ensures 1.0 + Mul(m + 1.0, h) <= Mul(q, 1.0 + h)
    ensures h != 0.0 && 1.0 <= m ==> 1.0 + Mul(m + 1.0, h) < Mul(q, 1.0 + h)
  {
    SquareSign(h);
    BernoulliExpands(m, h);
    MulIsMonotone(1.0 + Mul(m, h), q, 1.0 + h);
    MulSign(m, Mul(h, h));
  }

  /** Multiplying by n multiplies an error of at most a half by n. */
  lemma ScaledError(x: real, y: real, error: real, n: real)
    requires error == x - y && -0.5 <= error <= 0.5 && 0.0 <= n
    ensures Abs(n * x - n * y) <= n * 0.5
  {
    Distributes(n, x, y, error);
    ScaledBounds(error, n);
    AbsWithin(n * x, n * y, n * error, n * 0.5);
  }

  lemma ScaledBounds(error: real, n: real)
    requires -0.5 <= error <= 0.5 && 0.0 <= n
    ensures -(n * 0.5) <= n * error <= n * 0.5
  {
    MulMonotone(error, 0.5, n);
    MulMonotone(-0.5, error, n);
  }

  lemma Distributes(n: real, x: real, y: real, difference: real)
    requires difference == x - y
    ensures n * x - n * y == n * difference
  {
  }

  lemma AbsWithin(p: real, q: real, difference: real, bound: real)
    requires difference == p - q && -bound <= difference <= bound
    ensures Abs(p - q) <= bound
  {
  }

  /** A rounded amount taken n times is within n halves of the exact one. */
  lemma RoundedTimes(n: nat, x: real)
    ensures Abs((n * Round(x)) as real - n as real * x) <= n as real * 0.5
  {
    RoundIsNear(x);
    ScaledError(Round(x) as real, x, Round(x) as real - x, n as real);
    assert (n * Round(x)) as real == n as real * Round(x) as real;
  }

  /** n equal amounts. */
  function Times(n: nat, x: real): real {
    n as real * x
  }

  lemma RoundedTimesNamed(n: nat, x: real, rounded: int, times: int, exact: real)
    requires rounded == Round(x) && times == n * rounded && exact == Times(n, x)
    ensures Abs(times as real - exact) <= n as real * 0.5
  {
    RoundedTimes(n, x);
  }

  /** Half-way cases go up, so a rounded number tells where the number lay. */
  lemma RoundIsHalfUp(x: real, n: int)
    ensures Round(x) == n <==> n as real - 0.5 <= x < n as real + 0.5
  {
  }
}
