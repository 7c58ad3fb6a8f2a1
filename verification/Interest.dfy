/** Compound interest on the scale factor: whole days by truncating
    square-and-multiply, the rest of a day linearly (src/logic/interest.rs). */
module Interest {
  import opened Outcomes
  import opened FixedPoint
  import opened Powers

  const SECONDS_PER_DAY: int := 86_400
  const DAYS_PER_YEAR: int := 365
  const SECONDS_PER_YEAR: int := 31_536_000
  const MAX_ANNUAL_INTEREST_BPS: int := 10_000
  /** Five years in seconds: the longest term a market can be created with. */
  const MAX_TERM: int := 157_680_000

  // ------------------------------------------------------------------
  // The arithmetic of the program, with its overflow failures
  // ------------------------------------------------------------------

  function MulWad(a: int, b: int): Result<int> {
    var product :- MulU128(a, b);
    Success(product / WAD)
  }

  /** What the square-and-multiply loop still has to do from `(acc, b, e)`. */
  function PowLoop(acc: int, b: int, e: nat): Result<int>
    decreases e
  {
    if e == 0 then Success(acc)
    else
      var acc' :- if e % 2 == 1 then MulWad(acc, b) else Success(acc);
      if e / 2 == 0 then Success(acc')
      else
        var b' :- MulWad(b, b);
        PowLoop(acc', b', e / 2)
  }

  function PowWad(base: int, exp: nat): Result<int> {
    PowLoop(WAD, base, exp)
  }

  method ComputePowWad(base: int, exp: nat) returns (r: Result<int>)
    ensures r == PowWad(base, exp)
  {
    var result, b, e := WAD, base, exp;
    while e > 0
      invariant e >= 0
      invariant PowLoop(result, b, e) == PowWad(base, exp)
    {
      if e % 2 == 1 {
        var product := MulWad(result, b);
        if product.Failure? {
          return product;
        }
        result := product.value;
      }
      e := e / 2;
      if e > 0 {
        var square := MulWad(b, b);
        if square.Failure? {
          return square;
        }
        b := square.value;
      }
    }
    return Success(result);
  }

  function DailyRate(bps: int): int {
    bps * WAD / (DAYS_PER_YEAR * BPS)
  }

  function SubDayRate(bps: int, seconds: int): int {
    bps * seconds * WAD / (SECONDS_PER_YEAR * BPS)
  }

  /** The growth factor for `elapsed` seconds. */
  function Growth(bps: int, elapsed: nat): Result<int> {
    var days, rest := elapsed / SECONDS_PER_DAY, elapsed % SECONDS_PER_DAY;
    if days > U32_MAX then Failure(MathOverflow)
    else
      var _ :- MulU128(bps, WAD);
      var base :- AddU128(WAD, DailyRate(bps));
      var daysGrowth :- PowWad(base, days);
      var _ :- MulU128(bps * rest, WAD);
      var restGrowth :- AddU128(WAD, SubDayRate(bps, rest));
      MulWad(daysGrowth, restGrowth)
  }

  // ------------------------------------------------------------------
  // The same arithmetic on unbounded integers
  // ------------------------------------------------------------------

  function FloorMul(a: int, b: int): int {
    a * b / WAD
  }

  function PowFloor(acc: int, b: int, e: nat): int
    decreases e
  {
    if e == 0 then acc
    else PowFloor(if e % 2 == 1 then FloorMul(acc, b) else acc, FloorMul(b, b), e / 2)
  }

  function DaysGrowth(bps: int, days: nat): int {
    PowFloor(WAD, WAD + DailyRate(bps), days)
  }

  function GrowthFloor(bps: int, elapsed: nat): int {
    FloorMul(DaysGrowth(bps, elapsed / SECONDS_PER_DAY), WAD + SubDayRate(bps, elapsed % SECONDS_PER_DAY))
  }

  lemma FloorMulBounds(a: int, b: int)
    ensures FloorMul(a, b) * WAD <= a * b < FloorMul(a, b) * WAD + WAD
  {
    DivBounds(a * b, WAD);
  }

  lemma FloorMulMono(a: int, a': int, b: int, b': int)
    requires 0 <= a <= a' && 0 <= b <= b'
    ensures 0 <= FloorMul(a, b) <= FloorMul(a', b')
  {
    MulLe(a, a', b);
    MulLe(b, b', a');
    MulLe(0, a, b);
    DivNonNegative(a * b, WAD);
    DivMono(a * b, a' * b', WAD);
  }

  lemma FloorMulUnit(a: int)
    ensures FloorMul(a, WAD) == a == FloorMul(WAD, a)
  {
    DivIs(a * WAD, WAD, a);
  }

  /** Growing by a factor of at least one never shrinks. */
  lemma FloorMulGrows(a: int, b: int)
    requires 0 <= a && WAD <= b
    ensures a <= FloorMul(a, b)
  {
    FloorMulUnit(a);
    FloorMulMono(a, a, WAD, b);
  }

  // ------------------------------------------------------------------
  // Truncating powers
  // ------------------------------------------------------------------

  lemma UnderRatio(w: int, m: int, a: int, b: int, x: int, y: int)
    requires 0 < w && 0 <= a && 0 <= x
    requires m * w <= a * b && b * x <= w * y
    ensures m * x <= a * y
  {
    MulLe(m * w, a * b, x);
    MulLe(b * x, w * y, a);
    assert (a * b) * x == a * (b * x);
    assert (m * w) * x == (m * x) * w;
    assert a * (w * y) == (a * y) * w;
    MulCancel(m * x, a * y, w);
  }

  lemma SquareUnderRatio(a: int, b: int, x: int, y: int)
    requires 0 <= a && 0 <= b && 0 <= x && 0 <= y
    requires b * x <= WAD * y
    ensures FloorMul(a, b) * x <= a * y
  {
    FloorMulBounds(a, b);
    UnderRatio(WAD, FloorMul(a, b), a, b, x, y);
  }

  lemma SquareScaled(w: int, m: int, b: int, x: int, y: int)
    requires 0 <= x && 0 <= y
    requires m * x <= b * y && b * x <= w * y
    ensures m * (x * x) <= w * (y * y)
  {
    MulLe(m * x, b * y, x);
    MulLe(b * x, w * y, y);
    assert (m * x) * x == m * (x * x);
    assert (b * y) * x == (b * x) * y;
    assert (w * y) * y == w * (y * y);
  }

  lemma SquareRatio(b: int, x: int, y: int)
    requires 0 <= b && 0 <= x && 0 <= y
    requires b * x <= WAD * y
    ensures 0 <= FloorMul(b, b)
    ensures FloorMul(b, b) * (x * x) <= WAD * (y * y)
  {
    FloorMulMono(0, b, 0, b);
    SquareUnderRatio(b, b, x, y);
    SquareScaled(WAD, FloorMul(b, b), b, x, y);
  }

  /** If one truncated factor is at most y/x, then e of them are at most (y/x)^e. */
  lemma {:induction false} PowFloorUpper(acc: int, b: int, e: nat, x: int, y: int)
    requires 0 <= acc && 0 <= b && 0 < x && 0 <= y
    requires b * x <= WAD * y
    ensures PowFloor(acc, b, e) * Pow(x, e) <= acc * Pow(y, e)
    decreases e
  {
    if e == 0 {
    } else {
      var h := e / 2;
      SquareRatio(b, x, y);
      MulLe(0, x, x);
      MulLe(0, y, y);
      PowSquare(x, h);
      PowSquare(y, h);
      assert x * x > 0 by { MulLe(1, x, x); }
      if e % 2 == 0 {
        PowFloorUpper(acc, FloorMul(b, b), h, x * x, y * y);
      } else {
        FloorMulMono(0, acc, 0, b);
        var m := FloorMul(acc, b);
        PowFloorUpper(m, FloorMul(b, b), h, x * x, y * y);
        SquareUnderRatio(acc, b, x, y);
        PowMonoBase(0, y, 2 * h);
        ScaleStep(PowFloor(acc, b, e), Pow(x, 2 * h), Pow(y, 2 * h), m, acc, x, y);
      }
    }
  }

  lemma ScaleStep(p: int, px: int, py: int, m: int, acc: int, x: int, y: int)
    requires 0 <= x && 0 <= py
    requires p * px <= m * py && m * x <= acc * y
    ensures p * (x * px) <= acc * (y * py)
  {
    MulLe(p * px, m * py, x);
    MulLe(m * x, acc * y, py);
    assert (p * px) * x == p * (x * px);
    assert (m * py) * x == (m * x) * py;
    assert (acc * y) * py == acc * (y * py);
  }

  lemma FloorMulLower(a: int, b: int)
    requires WAD <= a && WAD <= b
    ensures WAD <= FloorMul(a, b)
    ensures a * b * (WAD - 1) <= FloorMul(a, b) * (WAD * WAD)
  {
    FloorMulGrows(a, b);
    FloorMulBounds(a, b);
    MulLe(WAD, a, WAD);
    MulLe(WAD, b, a);
    LosesOnePart(WAD, a * b, FloorMul(a, b));
  }

  lemma LosesOnePart(w: int, product: int, m: int)
    requires 0 < w && w * w <= product < m * w + w
    ensures product * (w - 1) <= m * (w * w)
  {
    MulLe(product + 1, m * w + w, w);
    assert (m * w + w) * w == m * (w * w) + w * w;
    assert product * (w - 1) == product * w - product;
  }

  /** e truncations lose at most a factor (1 - 1/WAD)^e. */
  lemma {:induction false} PowFloorLower(acc: int, b: int, e: nat)
    requires WAD <= acc && WAD <= b
    ensures acc * Pow(b * (WAD - 1), e) <= PowFloor(acc, b, e) * Pow(WAD * WAD, e)
    ensures WAD <= PowFloor(acc, b, e)
    decreases e
  {
    if e == 0 {
    } else {
      var x, q, b2 := b * (WAD - 1), WAD * WAD, FloorMul(b, b);
      var acc' := if e % 2 == 1 then FloorMul(acc, b) else acc;
      FloorMulLower(b, b);
      FloorMulLower(acc, b);
      MulLe(0, b, WAD - 1);
      PowFloorLower(acc', b2, e / 2);
      SquareLoses(WAD - 1, b, b2, q);
      LowerEvenStep(PowFloor(acc, b, e), acc', x, b2 * (WAD - 1), q, e / 2);
      if e % 2 == 1 {
        assert acc * b * (WAD - 1) == acc * x;
        LowerOddStep(PowFloor(acc, b, e), acc', acc, x, q, e - 1);
      }
    }
  }

  lemma SquareLoses(g: int, b: int, b2: int, q: int)
    requires 0 <= g && b * b * g <= b2 * q
    ensures (b * g) * (b * g) <= (b2 * g) * q
  {
    MulLe(b * b * g, b2 * q, g);
    assert (b * g) * (b * g) == (b * b * g) * g;
    assert (b2 * g) * q == (b2 * q) * g;
  }

  lemma LowerEvenStep(p: int, acc: int, x: int, x2: int, q: int, h: nat)
    requires 0 <= acc && 0 <= x && 0 < q && x * x <= x2 * q
    requires acc * Pow(x2, h) <= p * Pow(q, h)
    ensures acc * Pow(x, 2 * h) <= p * Pow(q, 2 * h)
  {
    MulLe(0, x, x);
    PowMonoBase(x * x, x2 * q, h);
    PowSquare(x, h);
    PowProduct(x2, q, h);
    PowPositive(q, h);
    PowAdd(q, h, h);
    LowerEven(p, acc, Pow(x2, h), Pow(q, h), Pow(x, 2 * h));
  }

  lemma LowerEven(p: int, acc: int, pb2: int, pq: int, pb: int)
    requires 0 <= acc && 0 < pq
    requires acc * pb2 <= p * pq && pb <= pb2 * pq
    ensures acc * pb <= p * (pq * pq)
  {
    MulLe(acc * pb2, p * pq, pq);
    MulLe(pb, pb2 * pq, acc);
    assert (acc * pb2) * pq == acc * (pb2 * pq);
    assert (p * pq) * pq == p * (pq * pq);
  }

  lemma LowerOdd(p: int, m: int, acc: int, x: int, q: int, pq: int, px: int)
    requires 0 <= px && 0 <= q && acc * x <= m * q && m * px <= p * pq
    ensures acc * (x * px) <= p * (q * pq)
  {
    MulLe(acc * x, m * q, px);
    MulLe(m * px, p * pq, q);
    assert (acc * x) * px == acc * (x * px);
    assert (m * q) * px == (m * px) * q;
    assert (p * pq) * q == p * (q * pq);
  }

  lemma LowerOddStep(p: int, m: int, acc: int, x: int, q: int, n: nat)
    requires 0 <= x && 0 <= q && acc * x <= m * q
    requires m * Pow(x, n) <= p * Pow(q, n)
    ensures acc * Pow(x, n + 1) <= p * Pow(q, n + 1)
  {
    PowMonoBase(0, x, n);
    LowerOdd(p, m, acc, x, q, Pow(q, n), Pow(x, n));
  }

  /** The truncating power is within a relative error e/WAD of the exact one. */
  lemma PowSandwich(b: int, e: nat)
    requires WAD <= b
    ensures (WAD - e) * Pow(b, e) <= PowFloor(WAD, b, e) * Pow(WAD, e) <= WAD * Pow(b, e)
  {
    PowFloorUpper(WAD, b, e, WAD, b);
    PowFloorLower(WAD, b, e);
    PowProduct(b, WAD - 1, e);
    PowProduct(WAD, WAD, e);
    BernoulliBelow(WAD, e);
    PowPositive(WAD, e);
    PowPositive(b, e);
    SandwichAlgebra(PowFloor(WAD, b, e), Pow(b, e), Pow(WAD, e), Pow(WAD - 1, e), WAD, WAD - e);
  }

  lemma SandwichAlgebra(p: int, pb: int, pw: int, pg: int, w: int, we: int)
    requires 0 < pb && 0 < pw
    requires w * (pb * pg) <= p * (pw * pw)
    requires we * pw <= w * pg
    ensures we * pb <= p * pw
  {
    MulLe(we * pw, w * pg, pb);
    assert (w * pg) * pb == w * (pb * pg);
    assert (we * pw) * pb == (we * pb) * pw;
    assert p * (pw * pw) == (p * pw) * pw;
    MulCancel(we * pb, p * pw, pw);
  }

  lemma HalvedInterest(d: int, g: int, e: nat)
    requires 2 * d <= g
    ensures e * d <= (e / 2) * g + (if e % 2 == 1 then d else 0)
  {
    MulLe(2 * d, g, e / 2);
    assert (e / 2) * (2 * d) == (2 * (e / 2)) * d;
    assert e * d == (2 * (e / 2) + e % 2) * d;
  }

  /** Compounding always earns at least simple interest, in spite of truncation. */
  lemma {:induction false} PowAtLeastLinear(x: int, d: int, e: nat)
    requires 0 <= x && 0 <= d
    ensures WAD + x + e * d <= PowFloor(WAD + x, WAD + d, e)
    decreases e
  {
    if e == 0 {
    } else {
      var h := e / 2;
      var b2 := FloorMul(WAD + d, WAD + d);
      SumBelowProduct(d, d);
      SumBelowProduct(x, d);
      var x' := if e % 2 == 1 then FloorMul(WAD + x, WAD + d) - WAD else x;
      PowAtLeastLinear(x', b2 - WAD, h);
      HalvedInterest(d, b2 - WAD, e);
    }
  }

  lemma SumBelowProduct(x: int, d: int)
    requires 0 <= x && 0 <= d
    ensures WAD + x + d <= FloorMul(WAD + x, WAD + d)
  {
    MulLe(0, x, d);
    assert (WAD + x) * (WAD + d) == WAD * (WAD + x + d) + x * d;
    DivAtLeast((WAD + x) * (WAD + d), WAD, WAD + x + d);
  }

  lemma {:induction false} PowMonotone(acc: int, acc': int, b: int, b': int, e: nat)
    requires 0 <= acc <= acc' && 0 <= b <= b'
    ensures 0 <= PowFloor(acc, b, e) <= PowFloor(acc', b', e)
    decreases e
  {
    if e == 0 {
    } else {
      FloorMulMono(acc, acc', b, b');
      FloorMulMono(b, b', b, b');
      PowMonotone(if e % 2 == 1 then FloorMul(acc, b) else acc, if e % 2 == 1 then FloorMul(acc', b') else acc',
                  FloorMul(b, b), FloorMul(b', b'), e / 2);
    }
  }

  /** A partial product of low powers is never worth more than the carry into the next power. */
  lemma {:induction false} PowCarry(acc: int, b: int, e: nat)
    requires WAD <= b && 0 <= acc <= b
    ensures PowFloor(acc, b, e) <= PowFloor(WAD, b, e + 1)
    decreases e
  {
    var b2 := FloorMul(b, b);
    FloorMulGrows(b, b);
    FloorMulUnit(b);
    assert PowFloor(WAD, b, e + 1) == PowFloor(if e % 2 == 0 then b else WAD, b2, (e + 1) / 2);
    if e == 0 {
      assert PowFloor(b, b2, 0) == b;
    } else if e % 2 == 0 {
      PowMonotone(acc, b, b2, b2, e / 2);
    } else {
      FloorMulMono(acc, b, b, b);
      PowCarry(FloorMul(acc, b), b2, e / 2);
      assert (e + 1) / 2 == e / 2 + 1;
    }
  }

  lemma {:induction false} PowMonotoneInExponent(b: int, e: nat, e': nat)
    requires WAD <= b && e <= e'
    ensures PowFloor(WAD, b, e) <= PowFloor(WAD, b, e')
    decreases e' - e
  {
    if e == e' {
    } else {
      PowCarry(WAD, b, e);
      PowMonotoneInExponent(b, e + 1, e');
    }
  }

  // ------------------------------------------------------------------
  // Bounds on growth
  // ------------------------------------------------------------------

  lemma RateBounds(bps: int, rest: int)
    requires 0 <= bps <= MAX_ANNUAL_INTEREST_BPS && 0 <= rest < SECONDS_PER_DAY
    ensures 0 <= DailyRate(bps) && DAYS_PER_YEAR * DailyRate(bps) <= WAD
    ensures 0 <= SubDayRate(bps, rest) && SECONDS_PER_YEAR * SubDayRate(bps, rest) <= rest * WAD
  {
    DivBounds(bps * WAD, DAYS_PER_YEAR * BPS);
    DivNonNegative(bps * WAD, DAYS_PER_YEAR * BPS);
    MulLe(bps, BPS, rest * WAD);
    assert bps * rest * WAD == bps * (rest * WAD);
    MulLe(0, bps, rest * WAD);
    DivNonNegative(bps * rest * WAD, SECONDS_PER_YEAR * BPS);
    DivBounds(bps * rest * WAD, SECONDS_PER_YEAR * BPS);
  }

  /** `to` is at most `from` times (1 + 1/n)^t. */
  ghost predicate GrewAtMost(from: int, to: int, n: int, t: nat) {
    to * Pow(n, t) <= from * Pow(n + 1, t)
  }

  lemma GrewCompose(w: int, a: int, b: int, c: int, n: int, t: nat, u: nat)
    requires 0 < w && 0 < n && 0 <= a && 0 <= b && 0 <= c
    requires GrewAtMost(w, a, n, t) && GrewAtMost(w, b, n, u)
    requires c * w <= a * b
    ensures GrewAtMost(w, c, n, t + u)
    ensures a * b * Pow(n, t + u) <= w * w * Pow(n + 1, t + u)
  {
    PowAdd(n, t, u);
    PowAdd(n + 1, t, u);
    PowPositive(n, t);
    PowPositive(n, u);
    PowPositive(n + 1, t);
    PowPositive(n + 1, u);
    ComposeAlgebra(w, a, b, c, Pow(n, t), Pow(n, u), Pow(n + 1, t), Pow(n + 1, u));
  }

  lemma ComposeAlgebra(w: int, a: int, b: int, c: int, pt: int, pu: int, qt: int, qu: int)
    requires 0 < w && 0 <= a && 0 <= b && 0 < pt && 0 < pu && 0 < qt && 0 < qu
    requires a * pt <= w * qt && b * pu <= w * qu && c * w <= a * b
    ensures c * (pt * pu) <= w * (qt * qu)
    ensures a * b * (pt * pu) <= w * w * (qt * qu)
  {
    MulLe(0, b, pu);
    MulLe(a * pt, w * qt, b * pu);
    MulLe(b * pu, w * qu, w * qt);
    Regroup(a, b, pt, pu);
    Regroup(w, w, qt, qu);
    MulLe(0, pt, pu);
    MulLe(c * w, a * b, pt * pu);
    assert (c * w) * (pt * pu) == (c * (pt * pu)) * w;
    assert w * w * (qt * qu) == (w * (qt * qu)) * w;
    MulCancel(c * (pt * pu), w * (qt * qu), w);
  }

  /** One truncated day grows no more than a day of per-second compounding. */
  lemma DayRatio(b: int, day: nat, n: int)
    requires 0 < day && n == DAYS_PER_YEAR * day
    requires 0 <= b && DAYS_PER_YEAR * b <= (DAYS_PER_YEAR + 1) * WAD
    ensures b * Pow(n, day) <= WAD * Pow(n + 1, day)
  {
    Bernoulli(n, 1, day);
    PowPositive(n, day);
    var p, q := Pow(n, day), Pow(n + 1, day);
    assert n + day * 1 == (DAYS_PER_YEAR + 1) * day;
    assert p * ((DAYS_PER_YEAR + 1) * day) == ((DAYS_PER_YEAR + 1) * p) * day;
    assert q * (DAYS_PER_YEAR * day) == (DAYS_PER_YEAR * q) * day;
    MulCancel((DAYS_PER_YEAR + 1) * p, DAYS_PER_YEAR * q, day);
    MulLe(DAYS_PER_YEAR * b, (DAYS_PER_YEAR + 1) * WAD, p);
    MulLe((DAYS_PER_YEAR + 1) * p, DAYS_PER_YEAR * q, WAD);
  }

  lemma DaysGrewAtMost(b: int, d: nat, day: nat, n: int)
    requires 0 < day && n == DAYS_PER_YEAR * day
    requires 0 <= b && DAYS_PER_YEAR * b <= (DAYS_PER_YEAR + 1) * WAD
    ensures GrewAtMost(WAD, PowFloor(WAD, b, d), n, day * d)
  {
    DayRatio(b, day, n);
    PowPositive(n, day);
    PowPositive(n + 1, day);
    PowFloorUpper(WAD, b, d, Pow(n, day), Pow(n + 1, day));
    PowPow(n, day, d);
    PowPow(n + 1, day, d);
  }

  lemma RestAlgebra(w: int, l: int, rest: int, n: int, p: int, q: int)
    requires 0 < n && 0 <= p && 0 <= w && n * l <= (n + rest) * w
    requires p * (n + rest) <= q * n
    ensures l * p <= w * q
  {
    MulLe(n * l, (n + rest) * w, p);
    MulLe(p * (n + rest), q * n, w);
    assert ((n + rest) * w) * p == (p * (n + rest)) * w;
    assert (n * l) * p == (l * p) * n;
    assert (q * n) * w == (w * q) * n;
    MulCancel(l * p, w * q, n);
  }

  lemma RestGrewAtMost(l: int, rest: nat, n: int)
    requires 0 < n && n * l <= n * WAD + rest * WAD
    ensures GrewAtMost(WAD, l, n, rest)
  {
    Bernoulli(n, 1, rest);
    PowPositive(n, rest);
    assert rest * 1 == rest;
    RestAlgebra(WAD, l, rest, n, Pow(n, rest), Pow(n + 1, rest));
  }

  /** The growth factor never exceeds per-second compounding at 100% a year. */
  lemma GrowthBounded(bps: int, elapsed: nat)
    requires 0 <= bps <= MAX_ANNUAL_INTEREST_BPS
    ensures GrewAtMost(WAD, GrowthFloor(bps, elapsed), SECONDS_PER_YEAR, elapsed)
    ensures WAD <= GrowthFloor(bps, elapsed)
  {
    var d, rest := elapsed / SECONDS_PER_DAY, elapsed % SECONDS_PER_DAY;
    RateBounds(bps, rest);
    var b, l := WAD + DailyRate(bps), WAD + SubDayRate(bps, rest);
    DaysGrewAtMost(b, d, SECONDS_PER_DAY, SECONDS_PER_YEAR);
    RestGrewAtMost(l, rest, SECONDS_PER_YEAR);
    PowFloorLower(WAD, b, d);
    FloorMulBounds(DaysGrowth(bps, d), l);
    FloorMulLower(DaysGrowth(bps, d), l);
    GrewCompose(WAD, DaysGrowth(bps, d), l, GrowthFloor(bps, elapsed), SECONDS_PER_YEAR, SECONDS_PER_DAY * d, rest);
  }

  // ------------------------------------------------------------------
  // No overflow within five years
  // ------------------------------------------------------------------

  const MAX_GROWTH: int := 243

  /** Five years of growth is at most a factor of 243. */
  lemma FiveYears(n: int, t: nat)
    requires 0 < n && t <= 5 * n
    ensures Pow(n + 1, t) <= MAX_GROWTH * Pow(n, t)
  {
    YearsBound(n, t, 5);
    assert Pow(3, 5) == 243;
  }

  /** Within five years a product that composes two growths fits in 128 bits. */
  lemma GrewProductFits(a: int, b: int, n: int, t: nat, u: nat)
    requires 0 < n && 0 <= a && 0 <= b && t + u <= 5 * n
    requires GrewAtMost(WAD, a, n, t) && GrewAtMost(WAD, b, n, u)
    ensures a * b <= MAX_GROWTH * (WAD * WAD) <= U128_MAX
    ensures MulWad(a, b) == Success(FloorMul(a, b))
  {
    FloorMulBounds(a, b);
    GrewCompose(WAD, a, b, FloorMul(a, b), n, t, u);
    FiveYears(n, t + u);
    PowPositive(n, t + u);
    MulLe(Pow(n + 1, t + u), MAX_GROWTH * Pow(n, t + u), WAD * WAD);
    assert WAD * WAD * (MAX_GROWTH * Pow(n, t + u)) == (MAX_GROWTH * (WAD * WAD)) * Pow(n, t + u);
    MulCancel(a * b, MAX_GROWTH * (WAD * WAD), Pow(n, t + u));
  }

  lemma {:induction false} PowLoopFits(acc: int, b: int, e: nat, x: int, y: int)
    requires WAD <= acc && WAD <= b && 0 < x <= y
    requires b * x <= WAD * y
    requires acc * Pow(y, e) <= MAX_GROWTH * WAD * Pow(x, e)
    ensures PowLoop(acc, b, e) == Success(PowFloor(acc, b, e))
    decreases e
  {
    if e == 0 {
    } else {
      var h := e / 2;
      var acc' := if e % 2 == 1 then FloorMul(acc, b) else acc;
      FloorMulLower(acc, b);
      FloorMulLower(b, b);
      PowSquare(x, h);
      PowSquare(y, h);
      if e % 2 == 1 {
        FactorFits(acc, b, x, y, e);
        OddFactorPaid(acc, b, x, y, e);
      }
      if h > 0 {
        SquareFits(acc, b, x, y, e);
        SquareRatio(b, x, y);
        MulLe(x, y, x);
        MulLe(x, y, y);
        MulLe(1, x, x);
        PowLoopFits(acc', FloorMul(b, b), h, x * x, y * y);
      }
    }
  }

  lemma DropAlgebra(acc: int, x: int, y: int, p: int, q: int, cap: int)
    requires 0 <= acc && 0 < x <= y && 0 <= q
    requires acc * (y * q) <= cap * (x * p)
    ensures acc * q <= cap * p
  {
    MulLe(0, acc, q);
    MulLe(x, y, acc * q);
    assert acc * (y * q) == y * (acc * q);
    assert cap * (x * p) == (cap * p) * x;
    MulCancel(acc * q, cap * p, x);
  }

  lemma {:induction false} DropPowers(acc: int, x: int, y: int, e: nat, k: nat, cap: int)
    requires 0 <= acc && 0 < x <= y && k <= e
    requires acc * Pow(y, e) <= cap * Pow(x, e)
    ensures acc * Pow(y, k) <= cap * Pow(x, k)
    decreases e - k
  {
    if k == e {
    } else {
      PowPositive(y, e - 1);
      DropAlgebra(acc, x, y, Pow(x, e - 1), Pow(y, e - 1), cap);
      DropPowers(acc, x, y, e - 1, k, cap);
    }
  }

  lemma FactorCap(w: int, acc: int, b: int, x: int, y: int, cap: int)
    requires 0 <= acc && 0 < x && 0 <= w
    requires b * x <= w * y && acc * y <= cap * x
    ensures acc * b <= w * cap
  {
    MulLe(b * x, w * y, acc);
    assert acc * (b * x) == (acc * b) * x;
    assert acc * (w * y) == w * (acc * y);
    MulLe(acc * y, cap * x, w);
    assert w * (cap * x) == (w * cap) * x;
    MulCancel(acc * b, w * cap, x);
  }

  lemma FactorFits(acc: int, b: int, x: int, y: int, e: nat)
    requires WAD <= acc && WAD <= b && 0 < x <= y && 1 <= e
    requires b * x <= WAD * y
    requires acc * Pow(y, e) <= MAX_GROWTH * WAD * Pow(x, e)
    ensures acc * b <= U128_MAX
  {
    DropPowers(acc, x, y, e, 1, MAX_GROWTH * WAD);
    assert Pow(x, 1) == x && Pow(y, 1) == y;
    FactorCap(WAD, acc, b, x, y, MAX_GROWTH * WAD);
  }

  lemma SquareFits(acc: int, b: int, x: int, y: int, e: nat)
    requires WAD <= acc && WAD <= b && 0 < x <= y && 2 <= e
    requires b * x <= WAD * y
    requires acc * Pow(y, e) <= MAX_GROWTH * WAD * Pow(x, e)
    ensures b * b <= U128_MAX
  {
    DropPowers(acc, x, y, e, 2, MAX_GROWTH * WAD);
    assert Pow(x, 2) == x * x && Pow(y, 2) == y * y by { assert Pow(x, 1) == x && Pow(y, 1) == y; }
    MulLe(0, y, y);
    MulLe(WAD, acc, y * y);
    MulLe(1, x, x);
    SquareCap(WAD, b, x, y, MAX_GROWTH * WAD);
  }

  lemma SquareCap(w: int, b: int, x: int, y: int, cap: int)
    requires 0 <= b && 0 < x && 0 <= y && 0 <= w && 0 < x * x
    requires b * x <= w * y
    requires w * (y * y) <= cap * (x * x)
    ensures b * b <= w * cap
  {
    MulLe(0, b, x);
    MulLe(b * x, w * y, b * x);
    MulLe(b * x, w * y, w * y);
    assert (b * x) * (b * x) == (b * b) * (x * x);
    assert (w * y) * (w * y) == w * (w * (y * y));
    MulLe(w * (y * y), cap * (x * x), w);
    assert w * (cap * (x * x)) == (w * cap) * (x * x);
    MulCancel(b * b, w * cap, x * x);
  }

  lemma OddFactorPaid(acc: int, b: int, x: int, y: int, e: nat)
    requires WAD <= acc && WAD <= b && 0 < x <= y && 1 <= e
    requires b * x <= WAD * y
    requires acc * Pow(y, e) <= MAX_GROWTH * WAD * Pow(x, e)
    ensures FloorMul(acc, b) * Pow(y, e - 1) <= MAX_GROWTH * WAD * Pow(x, e - 1)
  {
    SquareUnderRatio(acc, b, x, y);
    PowPositive(y, e - 1);
    OddAlgebra(FloorMul(acc, b), acc, x, y, Pow(x, e - 1), Pow(y, e - 1), MAX_GROWTH * WAD);
  }

  lemma OddAlgebra(m: int, acc: int, x: int, y: int, px: int, py: int, cap: int)
    requires 0 < x && 0 <= py
    requires m * x <= acc * y && acc * (y * py) <= cap * (x * px)
    ensures m * py <= cap * px
  {
    MulLe(m * x, acc * y, py);
    assert (m * x) * py == (m * py) * x;
    assert (acc * y) * py == acc * (y * py);
    assert cap * (x * px) == (cap * px) * x;
    MulCancel(m * py, cap * px, x);
  }

  lemma DaysGrowthFits(b: int, d: nat, day: nat, n: int)
    requires 0 < day && n == DAYS_PER_YEAR * day && day * d <= 5 * n
    requires WAD <= b && DAYS_PER_YEAR * b <= (DAYS_PER_YEAR + 1) * WAD
    ensures PowWad(b, d) == Success(PowFloor(WAD, b, d))
  {
    DayRatio(b, day, n);
    PowPositive(n, day);
    PowMonoBase(n, n + 1, day);
    PowPow(n, day, d);
    PowPow(n + 1, day, d);
    FiveYears(n, day * d);
    MulLe(Pow(n + 1, day * d), MAX_GROWTH * Pow(n, day * d), WAD);
    PowLoopFits(WAD, b, d, Pow(n, day), Pow(n + 1, day));
  }

  lemma RatesFit(bps: int, rest: int)
    requires 0 <= bps <= MAX_ANNUAL_INTEREST_BPS && 0 <= rest < SECONDS_PER_DAY
    ensures MulU128(bps, WAD).Success? && AddU128(WAD, DailyRate(bps)) == Success(WAD + DailyRate(bps))
    ensures MulU128(bps * rest, WAD).Success?
    ensures AddU128(WAD, SubDayRate(bps, rest)) == Success(WAD + SubDayRate(bps, rest))
  {
    RateBounds(bps, rest);
    MulLe(bps, MAX_ANNUAL_INTEREST_BPS, rest * WAD);
    assert bps * rest * WAD == bps * (rest * WAD);
  }

  lemma DaysAndRestFit(bps: int, d: nat, rest: nat)
    requires 0 <= bps <= MAX_ANNUAL_INTEREST_BPS && rest < SECONDS_PER_DAY && SECONDS_PER_DAY * d + rest <= MAX_TERM
    ensures PowWad(WAD + DailyRate(bps), d) == Success(DaysGrowth(bps, d))
    ensures MulWad(DaysGrowth(bps, d), WAD + SubDayRate(bps, rest))
         == Success(FloorMul(DaysGrowth(bps, d), WAD + SubDayRate(bps, rest)))
  {
    RateBounds(bps, rest);
    var b, l := WAD + DailyRate(bps), WAD + SubDayRate(bps, rest);
    DaysGrowthFits(b, d, SECONDS_PER_DAY, SECONDS_PER_YEAR);
    DaysGrewAtMost(b, d, SECONDS_PER_DAY, SECONDS_PER_YEAR);
    RestGrewAtMost(l, rest, SECONDS_PER_YEAR);
    PowFloorLower(WAD, b, d);
    GrewProductFits(DaysGrowth(bps, d), l, SECONDS_PER_YEAR, SECONDS_PER_DAY * d, rest);
  }

  /** On every market the program can create, no step of the growth computation overflows. */
  lemma GrowthNeverOverflows(bps: int, elapsed: nat)
    requires 0 <= bps <= MAX_ANNUAL_INTEREST_BPS && elapsed <= MAX_TERM
    ensures Growth(bps, elapsed) == Success(GrowthFloor(bps, elapsed))
  {
    RatesFit(bps, elapsed % SECONDS_PER_DAY);
    DaysAndRestFit(bps, elapsed / SECONDS_PER_DAY, elapsed % SECONDS_PER_DAY);
  }

  // ------------------------------------------------------------------
  // Time monotonicity
  // ------------------------------------------------------------------

  /** Just before midnight the linear part has not yet overtaken one more compounded day. */
  lemma RateGap(bps: int, days: nat)
    requires 1 <= bps <= MAX_ANNUAL_INTEREST_BPS && days <= MAX_TERM / SECONDS_PER_DAY
    ensures WAD * (WAD + SubDayRate(bps, SECONDS_PER_DAY - 1)) <= (WAD - days) * (WAD + DailyRate(bps))
  {
    var dr, l := DailyRate(bps), SubDayRate(bps, SECONDS_PER_DAY - 1);
    RateBounds(bps, SECONDS_PER_DAY - 1);
    DivBounds(bps * WAD, DAYS_PER_YEAR * BPS);
    DivBounds(bps * (SECONDS_PER_DAY - 1) * WAD, SECONDS_PER_YEAR * BPS);
    assert dr - l >= 3_000_000;
    MulLe(days, 1825, WAD + dr);
    assert (WAD - days) * (WAD + dr) == WAD * (WAD + dr) - days * (WAD + dr);
  }

  lemma Cross(p: int, pw: int, w: int, pb: int, l: int, u: int)
    requires 0 < pb && 0 <= l
    requires p * pw <= w * pb && w * l <= u
    ensures (p * l) * pw <= u * pb
  {
    MulLe(p * pw, w * pb, l);
    MulLe(w * l, u, pb);
    assert (p * pw) * l == (p * l) * pw;
    assert (w * pb) * l == (w * l) * pb;
  }

  lemma BoundaryAlgebra(w: int, p: int, p': int, l: int, b: int, k: int, pw: int, pb: int)
    requires 0 < w && 0 < pw && 0 < pb && 0 <= l
    requires p * pw <= w * pb
    requires (w - k) * (b * pb) <= p' * (w * pw)
    requires w * l <= (w - k) * b
    ensures p * l <= p' * w
  {
    Cross(p, pw, w, pb, l, (w - k) * b);
    assert ((w - k) * b) * pb == (w - k) * (b * pb);
    assert p' * (w * pw) == (p' * w) * pw;
    MulCancel(p * l, p' * w, pw);
  }

  lemma DayBoundary(bps: int, d: nat)
    requires 0 <= bps <= MAX_ANNUAL_INTEREST_BPS && (d + 1) * SECONDS_PER_DAY <= MAX_TERM
    ensures FloorMul(DaysGrowth(bps, d), WAD + SubDayRate(bps, SECONDS_PER_DAY - 1)) <= DaysGrowth(bps, d + 1)
  {
    RateBounds(bps, SECONDS_PER_DAY - 1);
    var b, l := WAD + DailyRate(bps), WAD + SubDayRate(bps, SECONDS_PER_DAY - 1);
    var p, p' := DaysGrowth(bps, d), DaysGrowth(bps, d + 1);
    PowFloorLower(WAD, b, d + 1);
    if bps == 0 {
      PowCarry(WAD, b, d);
      FloorMulUnit(p);
    } else {
      PowSandwich(b, d);
      PowSandwich(b, d + 1);
      RateGap(bps, d + 1);
      PowPositive(WAD, d);
      PowPositive(b, d);
      BoundaryAlgebra(WAD, p, p', l, b, d + 1, Pow(WAD, d), Pow(b, d));
      DivAtMost(p * l, WAD, p');
    }
  }

  lemma SubDayMonotone(bps: int, rest: int, rest': int)
    requires 0 <= bps && 0 <= rest <= rest'
    ensures 0 <= SubDayRate(bps, rest) <= SubDayRate(bps, rest')
  {
    MulLe(rest, rest', bps);
    MulLe(0, rest, bps);
    DivNonNegative(bps * rest * WAD, SECONDS_PER_YEAR * BPS);
    DivMono(bps * rest * WAD, bps * rest' * WAD, SECONDS_PER_YEAR * BPS);
  }

  /** Waiting longer never earns less, across day boundaries included. */
  lemma {:induction false} GrowthMonotoneInTime(bps: int, t: nat, t': nat)
    requires 0 <= bps <= MAX_ANNUAL_INTEREST_BPS && t <= t' <= MAX_TERM
    ensures GrowthFloor(bps, t) <= GrowthFloor(bps, t')
    decreases t' - t
  {
    var d, rest := t / SECONDS_PER_DAY, t % SECONDS_PER_DAY;
    var d', rest' := t' / SECONDS_PER_DAY, t' % SECONDS_PER_DAY;
    RateBounds(bps, rest);
    PowFloorLower(WAD, WAD + DailyRate(bps), d);
    if d == d' {
      SubDayMonotone(bps, rest, rest');
      FloorMulMono(DaysGrowth(bps, d), DaysGrowth(bps, d), WAD + SubDayRate(bps, rest), WAD + SubDayRate(bps, rest'));
    } else {
      var next := (d + 1) * SECONDS_PER_DAY;
      SubDayMonotone(bps, rest, SECONDS_PER_DAY - 1);
      FloorMulMono(DaysGrowth(bps, d), DaysGrowth(bps, d),
                   WAD + SubDayRate(bps, rest), WAD + SubDayRate(bps, SECONDS_PER_DAY - 1));
      DayBoundary(bps, d);
      StartOfDay(bps, d + 1);
      GrowthMonotoneInTime(bps, next, t');
    }
  }

  lemma StartOfDay(bps: int, d: nat)
    ensures GrowthFloor(bps, d * SECONDS_PER_DAY) == DaysGrowth(bps, d)
  {
    assert bps * 0 * WAD == 0;
    FloorMulUnit(DaysGrowth(bps, d));
  }
}
