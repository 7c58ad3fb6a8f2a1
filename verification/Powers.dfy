/** Exact integer powers and the inequalities that bound compound interest. */
module Powers {
  import opened FixedPoint

  function Pow(b: int, e: nat): int {
    if e == 0 then 1 else b * Pow(b, e - 1)
  }

  lemma {:induction false} PowPositive(b: int, e: nat)
    requires b > 0
    ensures Pow(b, e) > 0
  {
    if e == 0 {
    } else {
      PowPositive(b, e - 1);
    }
  }

  lemma {:induction false} PowAdd(b: int, m: nat, n: nat)
    ensures Pow(b, m + n) == Pow(b, m) * Pow(b, n)
  {
    if m == 0 {
    } else {
      PowAdd(b, m - 1, n);
      assert Pow(b, m + n) == b * Pow(b, m - 1 + n);
      assert b * (Pow(b, m - 1) * Pow(b, n)) == Pow(b, m) * Pow(b, n);
    }
  }

  lemma PowSquare(b: int, h: nat)
    ensures Pow(b * b, h) == Pow(b, 2 * h)
    decreases h
  {
    if h > 0 {
      PowSquare(b, h - 1);
      assert Pow(b, 2 * h) == b * (b * Pow(b, 2 * h - 2));
      assert (b * b) * Pow(b, 2 * h - 2) == b * (b * Pow(b, 2 * h - 2));
    }
  }

  lemma {:induction false} PowProduct(a: int, b: int, e: nat)
    ensures Pow(a * b, e) == Pow(a, e) * Pow(b, e)
  {
    if e == 0 {
    } else {
      PowProduct(a, b, e - 1);
      Regroup(a, b, Pow(a, e - 1), Pow(b, e - 1));
    }
  }

  lemma Regroup(a: int, b: int, p: int, q: int)
    ensures (a * b) * (p * q) == (a * p) * (b * q)
  {
    assert (a * b) * (p * q) == a * (b * (p * q));
    assert b * (p * q) == p * (b * q);
    assert a * (p * (b * q)) == (a * p) * (b * q);
  }

  lemma {:induction false} PowPow(b: int, m: nat, n: nat)
    ensures Pow(Pow(b, m), n) == Pow(b, m * n)
    decreases n
  {
    if n > 0 {
      PowPow(b, m, n - 1);
      assert m * n == m + m * (n - 1);
      PowAdd(b, m, m * (n - 1));
    } else {
      assert m * n == 0;
    }
  }

  lemma {:induction false} PowMonoBase(a: int, b: int, e: nat)
    requires 0 <= a <= b
    ensures 0 <= Pow(a, e) <= Pow(b, e)
  {
    if e == 0 {
    } else {
      PowMonoBase(a, b, e - 1);
      MulLe(a, b, Pow(a, e - 1));
      MulLe(Pow(a, e - 1), Pow(b, e - 1), b);
      MulLe(0, a, Pow(a, e - 1));
    }
  }

  lemma BernoulliAlgebra(p: int, q: int, x: int, y: int, k: int)
    requires p >= 0 && x > 0 && y >= 0 && k >= 0
    requires p * (x + k) <= q * x
    ensures (x * p) * (x + (k + y)) <= ((x + y) * q) * x
  {
    MulLe(p * (x + k), q * x, x + y);
    assert (p * (x + k)) * (x + y) == (x * p) * (x + (k + y)) + p * (k * y) by {
      assert (x + k) * (x + y) == x * (x + (k + y)) + k * y;
    }
    MulLe(0, k, y);
    MulLe(0, k * y, p);
    assert (q * x) * (x + y) == ((x + y) * q) * x;
  }

  /** Bernoulli: (x + y)^n >= x^n * (1 + n*y/x). */
  lemma {:induction false} Bernoulli(x: int, y: int, n: nat)
    requires x > 0 && y >= 0
    ensures Pow(x, n) * (x + n * y) <= Pow(x + y, n) * x
  {
    if n == 0 {
    } else {
      Bernoulli(x, y, n - 1);
      PowPositive(x, n - 1);
      MulLe(0, n - 1, y);
      BernoulliAlgebra(Pow(x, n - 1), Pow(x + y, n - 1), x, y, (n - 1) * y);
      assert n * y == (n - 1) * y + y;
    }
  }

  lemma BelowProduct(x: int, a: int, p: int)
    ensures (a - 1) * (x * p) == (a * p) * (x - 1) - (x - a) * p
  {
    assert (a - 1) * x == a * (x - 1) - (x - a);
    assert (a - 1) * (x * p) == ((a - 1) * x) * p;
    assert (a * (x - 1)) * p == (a * p) * (x - 1);
  }

  lemma BelowAlgebra(x: int, j: int, p: int, q: int)
    requires x >= 1 && 0 <= j && 0 <= p
    requires (x - j) * p <= x * q
    ensures (x - (j + 1)) * (x * p) <= x * ((x - 1) * q)
  {
    BelowProduct(x, x - j, p);
    MulLe((x - j) * p, x * q, x - 1);
    MulLe(0, j, p);
    assert (x * q) * (x - 1) == x * ((x - 1) * q);
  }

  /** Bernoulli below: (x - 1)^n >= x^n * (1 - n/x). */
  lemma {:induction false} BernoulliBelow(x: int, n: nat)
    requires x >= 1
    ensures (x - n) * Pow(x, n) <= x * Pow(x - 1, n)
  {
    if n == 0 {
    } else {
      BernoulliBelow(x, n - 1);
      PowPositive(x, n - 1);
      BelowAlgebra(x, n - 1, Pow(x, n - 1), Pow(x - 1, n - 1));
    }
  }

  lemma EulerAlgebra(n: int, j: int)
    requires 0 <= j < n
    ensures (n * n + j * n + j * j) * (n + 1) <= n * (n * n + (j + 1) * n + (j + 1) * (j + 1))
  {
    var jn, jj := j * n, j * j;
    assert (j + 1) * n == jn + n;
    assert (j + 1) * (j + 1) == jj + 2 * j + 1;
    assert n * (n * n + (jn + n) + (jj + 2 * j + 1)) - (n * n + jn + jj) * (n + 1) == jn + n - jj;
    MulLe(j, n, j);
  }

  lemma EulerCombine(p: int, q: int, nn: int, u: int, v: int, n: int)
    requires 0 <= p && 0 <= n && q * nn <= p * u && u * (n + 1) <= n * v
    ensures ((n + 1) * q) * nn <= (n * p) * v
  {
    MulLe(q * nn, p * u, n + 1);
    assert (q * nn) * (n + 1) == ((n + 1) * q) * nn;
    MulLe(u * (n + 1), n * v, p);
    assert (p * u) * (n + 1) == p * (u * (n + 1));
    assert p * (n * v) == (n * p) * v;
  }

  /** (1 + 1/n)^k <= 1 + k/n + (k/n)^2 for k <= n. */
  lemma {:induction false} EulerStep(n: int, k: nat)
    requires n >= 1 && k <= n
    ensures Pow(n + 1, k) * (n * n) <= Pow(n, k) * (n * n + k * n + k * k)
  {
    if k == 0 {
    } else {
      var j := k - 1;
      EulerStep(n, j);
      PowPositive(n, j);
      EulerAlgebra(n, j);
      EulerCombine(Pow(n, j), Pow(n + 1, j), n * n, n * n + j * n + j * j, n * n + k * n + k * k, n);
    }
  }

  lemma ThreeAlgebra(n: int, k: int, p: int, q: int)
    requires 1 <= n && 0 <= k <= n && 0 <= p
    requires q * (n * n) <= p * (n * n + k * n + k * k)
    ensures q <= 3 * p
  {
    MulLe(k, n, n);
    MulLe(k, n, k);
    MulLe(1, n, n);
    MulLe(n * n + k * n + k * k, 3 * (n * n), p);
    assert p * (3 * (n * n)) == (3 * p) * (n * n);
    MulCancel(q, 3 * p, n * n);
  }

  /** (1 + 1/n)^k <= 3 for k <= n. */
  lemma ThreeBound(n: int, k: nat)
    requires n >= 1 && k <= n
    ensures Pow(n + 1, k) <= 3 * Pow(n, k)
  {
    EulerStep(n, k);
    PowPositive(n, k);
    ThreeAlgebra(n, k, Pow(n, k), Pow(n + 1, k));
  }

  lemma ProductOfBounds(a: int, b: int, c: int, d: int, k: int)
    requires 0 <= a && 0 <= b && 0 <= c
    requires a <= 3 * c && b <= k * d
    ensures a * b <= (3 * k) * (c * d)
  {
    MulLe(a, 3 * c, b);
    MulLe(b, k * d, 3 * c);
    assert (3 * c) * (k * d) == (3 * k) * (c * d);
  }

  /** Over at most `years` stretches of n steps the growth is at most 3^years. */
  lemma {:induction false} YearsBound(n: int, t: nat, years: nat)
    requires n >= 1 && t <= years * n
    ensures Pow(n + 1, t) <= Pow(3, years) * Pow(n, t)
    decreases years
  {
    PowPositive(n, t);
    if years == 0 {
    } else if t <= n {
      ThreeBound(n, t);
      PowPositive(3, years - 1);
      MulLe(3, Pow(3, years), Pow(n, t));
    } else {
      assert years * n == n + (years - 1) * n;
      YearsBound(n, t - n, years - 1);
      ThreeBound(n, n);
      PowAdd(n + 1, n, t - n);
      PowAdd(n, n, t - n);
      PowPositive(n + 1, n);
      PowPositive(n + 1, t - n);
      PowPositive(n, n);
      ProductOfBounds(Pow(n + 1, n), Pow(n + 1, t - n), Pow(n, n), Pow(n, t - n), Pow(3, years - 1));
    }
  }
}
