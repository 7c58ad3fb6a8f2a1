/** What it costs to split one accrual into several, and when it pays: rounding is bounded, and
    compounding outweighs it as soon as the steps are not tiny. */
module Splitting {
  import opened Outcomes
  import opened FixedPoint
  import opened Powers
  import opened Interest
  import opened Markets
  import opened Invariants
  import opened Accruals

  // ------------------------------------------------------------------
  // Relative losses and gains
  // ------------------------------------------------------------------

  /** `p` falls short of `x` by at most `k` parts in WAD; a negative `k` is a gain. */
  predicate Within(k: int, x: int, p: int) {
    (WAD - k) * x <= WAD * p
  }

  lemma WithinScaled(k: int, x: int, p: int, c: int)
    requires 0 < c
    ensures Within(k, x, p) <==> Within(k, x * c, p * c)
  {
    assert (WAD - k) * (x * c) == ((WAD - k) * x) * c;
    assert WAD * (p * c) == (WAD * p) * c;
    if Within(k, x, p) {
      MulLe((WAD - k) * x, WAD * p, c);
    }
    if Within(k, x * c, p * c) {
      MulCancel((WAD - k) * x, WAD * p, c);
    }
  }

  lemma WithinLoosened(k: int, k': int, x: int, p: int)
    requires 0 <= x && k <= k' && Within(k, x, p)
    ensures Within(k', x, p)
  {
    MulLe(WAD - k', WAD - k, x);
  }

  /** Shortfalls add up, but for `c` parts when a gain meets a loss. */
  lemma WithinThen(k: int, x: int, p: int, j: int, q: int, c: nat)
    requires 0 <= x && 0 <= q
    requires 0 <= k * j + c * WAD && (j <= WAD || 0 <= k)
    requires Within(k, x, p) && Within(j, p, q)
    ensures Within(k + j + c, x, q)
  {
    var rest := WAD - (k + j + c);
    if j <= WAD {
      MulLe((WAD - k) * x, WAD * p, WAD - j);
      MulLe((WAD - j) * p, WAD * q, WAD);
      assert ((WAD - k) * x) * (WAD - j) == ((WAD - k) * (WAD - j)) * x;
      assert (WAD * p) * (WAD - j) == ((WAD - j) * p) * WAD;
      assert (WAD - k) * (WAD - j) == WAD * rest + (k * j + c * WAD);
      MulLe(WAD * rest, (WAD - k) * (WAD - j), x);
      assert (WAD * rest) * x == (rest * x) * WAD;
      MulCancel(rest * x, WAD * q, WAD);
    } else {
      MulLe(rest, 0, x);
    }
  }

  // ------------------------------------------------------------------
  // Growth without truncation between its steps
  // ------------------------------------------------------------------

  function Days(e: nat): nat {
    e / SECONDS_PER_DAY
  }

  function RestGrowth(bps: int, seconds: int): int {
    WAD + SubDayRate(bps, seconds)
  }

  /** Growth over `e` seconds from exact powers, as a multiple of Unit(e). */
  function Untruncated(bps: int, e: nat): int {
    Pow(WAD + DailyRate(bps), Days(e)) * RestGrowth(bps, e % SECONDS_PER_DAY)
  }

  function Unit(e: nat): int {
    Pow(WAD, Days(e) + 1)
  }

  lemma RatesAdd(bps: int, r: nat, r': nat)
    requires 0 <= bps
    ensures SubDayRate(bps, r) + SubDayRate(bps, r') <= SubDayRate(bps, r + r')
         <= SubDayRate(bps, r) + SubDayRate(bps, r') + 1
  {
    var d := SECONDS_PER_YEAR * BPS;
    DivBounds(bps * r * WAD, d);
    DivBounds(bps * r' * WAD, d);
    DivBounds(bps * (r + r') * WAD, d);
    assert bps * (r + r') * WAD == bps * r * WAD + bps * r' * WAD;
  }

  lemma WholeDayRate(bps: int)
    ensures SubDayRate(bps, SECONDS_PER_DAY) == DailyRate(bps)
  {
    var q := bps * WAD / (DAYS_PER_YEAR * BPS);
    DivBounds(bps * WAD, DAYS_PER_YEAR * BPS);
    DivIs(bps * SECONDS_PER_DAY * WAD, SECONDS_PER_YEAR * BPS, q);
  }

  /** What two remainders of a day earn on each other: `x` on `y` within a day, and past it what
      each lacks of the day. */
  function Mutual(bps: int, e: nat, e': nat): int {
    var r, r', day := e % SECONDS_PER_DAY, e' % SECONDS_PER_DAY, DailyRate(bps);
    if r + r' < SECONDS_PER_DAY then SubDayRate(bps, r) * SubDayRate(bps, r')
    else (day - SubDayRate(bps, r)) * (day - SubDayRate(bps, r'))
  }

  lemma RestsWithinADay(x: int, y: int, z: int, g: nat)
    requires 0 <= x && 0 <= y && 0 <= z <= WAD && z <= x + y + 1
    requires g == 0 || 2 * g * WAD <= x * y
    ensures Within(1 - g, WAD * (WAD + z), (WAD + x) * (WAD + y))
  {
    var p, b := (WAD + x) * (WAD + y), WAD + z;
    MulLe(0, x, y);
    assert p == WAD * (WAD + x + y) + x * y;
    if g == 0 {
      MulLe(WAD * b - WAD, p, WAD);
    } else {
      MulLe(b, 2 * WAD, g - 1);
      assert WAD * b + (g - 1) * b <= p;
      MulLe(WAD * b + (g - 1) * b, p, WAD);
    }
    assert (WAD - (1 - g)) * (WAD * b) == (WAD * b + (g - 1) * b) * WAD;
  }

  lemma RestsPastADay(x: int, y: int, day: int, z: int, g: nat)
    requires 0 <= x <= day && 0 <= y <= day && 0 <= z && day + z <= x + y + 1
    requires 4 * day <= WAD && 4 * z <= WAD
    requires g == 0 || 2 * g * WAD <= (day - x) * (day - y)
    ensures Within(1 - g, (WAD + day) * (WAD + z), (WAD + x) * (WAD + y))
  {
    var p, b, most := (WAD + x) * (WAD + y), WAD + day, (WAD + day) * (WAD + z);
    DayLacks(x, y, day, z);
    MulLe(0, day - x, day - y);
    MulLe(WAD, WAD + z, b);
    if g == 0 {
      MulLe(most - b, p, WAD);
      assert (most - b) * WAD == WAD * most - b * WAD;
    } else {
      MulLe(b, 2 * WAD - day, 2 * WAD);
      MostIsSmall(day, z);
      MulLe(most, 2 * WAD * WAD, g - 1);
      assert (g - 1) * most <= (g - 1) * (2 * WAD * WAD);
      MulLe(most + (2 * g * WAD - b), p, WAD);
      assert (most + (2 * g * WAD - b)) * WAD == WAD * most + g * (2 * WAD * WAD) - b * WAD;
      assert (g - 1) * (2 * WAD * WAD) == g * (2 * WAD * WAD) - 2 * WAD * WAD;
    }
    assert (WAD - (1 - g)) * most == WAD * most + (g - 1) * most;
  }

  lemma MostIsSmall(day: int, z: int)
    requires 0 <= day && 0 <= z && 4 * day <= WAD && 4 * z <= WAD
    ensures (WAD + day) * (WAD + z) <= 2 * WAD * WAD
    ensures (WAD + day) * WAD <= 2 * WAD * WAD
  {
    MulLe(WAD + day, WAD + WAD / 4, WAD + z);
    MulLe(WAD + z, WAD + WAD / 4, WAD + WAD / 4);
  }

  /** Past a day the remainders multiply to the whole day and what is left, and what each lacks. */
  lemma DayLacks(x: int, y: int, day: int, z: int)
    requires 0 <= x <= day && 0 <= y <= day && 0 <= z && day + z <= x + y + 1
    ensures (WAD + day) * (WAD + z) - (WAD + day) + (day - x) * (day - y) <= (WAD + x) * (WAD + y)
  {
    assert (day - x) * (day - y) == day * day - day * (x + y) + x * y;
    MulLe(day + z - 1, x + y, day);
    assert day * (day + z - 1) == day * day + day * z - day;
    assert (WAD + x) * (WAD + y) == WAD * (WAD + x + y) + x * y;
    assert (WAD + day) * (WAD + z) == WAD * (WAD + day + z) + day * z;
  }

  lemma ComposeAlgebra(j: int, t: int, l: int, l': int, l'': int, pd: int, pd': int, q: int)
    requires 0 < pd * pd' && 0 < q && Within(j, t * l'', l * l')
    ensures Within(j, (t * (pd * pd') * l'') * q, ((pd * l) * (pd' * l')) * q)
  {
    var p := pd * pd';
    MulLe(1, p, q);
    WithinScaled(j, t * l'', l * l', p * q);
    Rearranged(t, l'', p, q);
    Commuted(pd, l, pd', l', q);
  }

  lemma Rearranged(t: int, l: int, p: int, q: int)
    ensures (t * l) * (p * q) == (t * p * l) * q == (p * l) * (t * q)
  {
    assert (t * l) * p == t * p * l;
    assert t * p * l == t * (p * l);
    assert (t * (p * l)) * q == (p * l) * (t * q);
  }

  lemma ComposeWithinADay(b: int, w: int, d: nat, d': nat, l: int, l': int, l'': int, j: int)
    requires 0 < b && 0 < w && Within(j, w * l'', l * l')
    ensures Within(j, (Pow(b, d + d') * l'') * (Pow(w, d + 1) * Pow(w, d' + 1)),
                      ((Pow(b, d) * l) * (Pow(b, d') * l')) * Pow(w, d + d' + 1))
  {
    PowAdd(b, d, d');
    PowAdd(w, d + 1, d' + 1);
    PowPositive(b, d + d');
    PowPositive(w, d + d' + 1);
    var q := Pow(w, d + d' + 1);
    ComposeAlgebra(j, w, l, l', l'', Pow(b, d), Pow(b, d'), q);
    Rearranged(w, l'', Pow(b, d + d'), q);
    assert Pow(w, d + 1) * Pow(w, d' + 1) == w * q;
  }

  lemma ComposePastADay(b: int, w: int, d: nat, d': nat, l: int, l': int, l'': int, j: int)
    requires 0 < b && 0 < w && Within(j, b * l'', l * l')
    ensures Within(j, (Pow(b, d + d' + 1) * l'') * (Pow(w, d + 1) * Pow(w, d' + 1)),
                      ((Pow(b, d) * l) * (Pow(b, d') * l')) * Pow(w, d + d' + 1 + 1))
  {
    PowAdd(b, d, d');
    PowAdd(w, d + 1, d' + 1);
    PowPositive(b, d + d');
    PowPositive(w, d + d' + 1 + 1);
    assert Pow(b, d + d' + 1) == b * (Pow(b, d) * Pow(b, d'));
    ComposeAlgebra(j, b, l, l', l'', Pow(b, d), Pow(b, d'), Pow(w, d + d' + 1 + 1));
  }

  lemma Commuted(p: int, l: int, p': int, l': int, q: int)
    ensures (l * l') * ((p * p') * q) == ((p * l) * (p' * l')) * q
  {
    Powers.Regroup(l, l', p, p');
    assert ((l * l') * (p * p')) * q == (l * l') * ((p * p') * q);
    assert (p * l) * (p' * l') == (l * l') * (p * p');
  }

  /** Parts in WAD that composing two growths gains over a single one, held to a safe size. */
  function Gain(bps: int, e: nat, e': nat): (g: int)
    ensures g <= LEAD_CAP
  {
    Min(LEAD_CAP, Mutual(bps, e, e') / (2 * WAD))
  }

  const LEAD_CAP: int := 500_000_000

  lemma MutualNonNegative(bps: int, e: nat, e': nat)
    requires 0 <= bps
    ensures 0 <= Mutual(bps, e, e') && 0 <= Gain(bps, e, e') && 2 * Gain(bps, e, e') * WAD <= Mutual(bps, e, e')
  {
    var r, r' := e % SECONDS_PER_DAY, e' % SECONDS_PER_DAY;
    SubDayMonotone(bps, 0, r);
    SubDayMonotone(bps, 0, r');
    SubDayMonotone(bps, r, SECONDS_PER_DAY);
    SubDayMonotone(bps, r', SECONDS_PER_DAY);
    WholeDayRate(bps);
    MulLe(0, SubDayRate(bps, r), SubDayRate(bps, r'));
    MulLe(0, DailyRate(bps) - SubDayRate(bps, r), DailyRate(bps) - SubDayRate(bps, r'));
    DivNonNegative(Mutual(bps, e, e'), 2 * WAD);
    DivBounds(Mutual(bps, e, e'), 2 * WAD);
  }

  lemma RatesAreSmall(bps: int, r: nat)
    requires 0 <= bps <= MAX_ANNUAL_INTEREST_BPS && r <= SECONDS_PER_DAY
    ensures 0 <= SubDayRate(bps, r) <= DailyRate(bps) && 4 * DailyRate(bps) <= WAD
  {
    RateBounds(bps, 0);
    SubDayMonotone(bps, 0, r);
    SubDayMonotone(bps, r, SECONDS_PER_DAY);
    WholeDayRate(bps);
  }

  /** Exact growths compose up to one part in WAD, whether or not their remainders fill a day, and
      gain on a single growth by what their remainders earn on each other. */
  lemma UntruncatedComposes(bps: int, e: nat, e': nat)
    requires 0 <= bps <= MAX_ANNUAL_INTEREST_BPS
    ensures Within(1 - Gain(bps, e, e'), Untruncated(bps, e + e') * (Unit(e) * Unit(e')),
                   (Untruncated(bps, e) * Untruncated(bps, e')) * Unit(e + e'))
  {
    var r, r', g := e % SECONDS_PER_DAY, e' % SECONDS_PER_DAY, Gain(bps, e, e');
    var b := WAD + DailyRate(bps);
    MutualNonNegative(bps, e, e');
    RatesAreSmall(bps, r);
    RatesAreSmall(bps, r');
    RatesAdd(bps, r, r');
    if r + r' < SECONDS_PER_DAY {
      assert Days(e + e') == Days(e) + Days(e') && (e + e') % SECONDS_PER_DAY == r + r';
      RatesAreSmall(bps, r + r');
      RestsWithinADay(SubDayRate(bps, r), SubDayRate(bps, r'), SubDayRate(bps, r + r'), g);
      ComposeWithinADay(b, WAD, Days(e), Days(e'), RestGrowth(bps, r), RestGrowth(bps, r'), RestGrowth(bps, r + r'),
                        1 - g);
    } else {
      var z := r + r' - SECONDS_PER_DAY;
      assert Days(e + e') == Days(e) + Days(e') + 1 && (e + e') % SECONDS_PER_DAY == z;
      RatesAdd(bps, SECONDS_PER_DAY, z);
      WholeDayRate(bps);
      RatesAreSmall(bps, z);
      RestsPastADay(SubDayRate(bps, r), SubDayRate(bps, r'), DailyRate(bps), SubDayRate(bps, z), g);
      ComposePastADay(b, WAD, Days(e), Days(e'), RestGrowth(bps, r), RestGrowth(bps, r'), RestGrowth(bps, z), 1 - g);
    }
  }

  lemma TruncatedBelow(p: int, l: int, g: int, pb: int, pw: int)
    requires 0 <= l && 0 < pw
    requires p * pw <= WAD * pb && g * WAD <= p * l
    ensures g * (WAD * pw) <= WAD * (pb * l)
  {
    MulLe(g * WAD, p * l, pw);
    MulLe(p * pw, WAD * pb, l);
    assert (g * WAD) * pw == g * (WAD * pw);
    assert (p * l) * pw == (p * pw) * l;
    assert (WAD * pb) * l == WAD * (pb * l);
  }

  lemma TruncatedNearly(d: nat, p: int, l: int, g: int, pb: int, pw: int)
    requires 0 < l && 0 < pw && 0 <= p && 0 <= g && 0 <= pb
    requires (WAD - d) * pb <= p * pw && Within(1, p * l, g * WAD)
    ensures Within(d + 1, WAD * (pb * l), g * (WAD * pw))
  {
    assert (WAD - d) * (WAD * pb) == ((WAD - d) * pb) * WAD;
    MulLe((WAD - d) * pb, p * pw, WAD);
    assert Within(d, WAD * pb, p * pw);
    WithinScaled(d, WAD * pb, p * pw, l);
    WithinScaled(1, p * l, g * WAD, pw);
    assert (p * l) * pw == (p * pw) * l;
    assert (WAD * pb) * l == WAD * (pb * l);
    assert (g * WAD) * pw == g * (WAD * pw);
    MulLe(0, pb, l);
    MulLe(0, g, WAD * pw);
    WithinThen(d, WAD * (pb * l), (p * pw) * l, 1, g * (WAD * pw), 0);
  }

  /** The program's growth is the exact one, less at most one part in WAD a day and one more. */
  lemma GrowthIsNearlyUntruncated(bps: int, e: nat)
    requires 0 <= bps <= MAX_ANNUAL_INTEREST_BPS
    ensures WAD <= GrowthFloor(bps, e)
    ensures GrowthFloor(bps, e) * Unit(e) <= WAD * Untruncated(bps, e)
    ensures Within(Days(e) + 1, WAD * Untruncated(bps, e), GrowthFloor(bps, e) * Unit(e))
  {
    var d := Days(e);
    RateBounds(bps, e % SECONDS_PER_DAY);
    var b, l := WAD + DailyRate(bps), RestGrowth(bps, e % SECONDS_PER_DAY);
    var p, g := DaysGrowth(bps, d), GrowthFloor(bps, e);
    PowSandwich(b, d);
    PowFloorLower(WAD, b, d);
    PowPositive(b, d);
    PowPositive(WAD, d);
    FloorMulBounds(p, l);
    FloorMulLower(p, l);
    TruncatedBelow(p, l, g, Pow(b, d), Pow(WAD, d));
    assert Within(1, p * l, g * WAD);
    TruncatedNearly(d, p, l, g, Pow(b, d), Pow(WAD, d));
  }

  // ------------------------------------------------------------------
  // One step
  // ------------------------------------------------------------------

  /** `to` is `from` grown exactly over `e` seconds, less at most `k` parts in WAD. */
  ghost predicate GrewNearly(from: int, to: int, bps: int, e: nat, k: int) {
    Within(k, from * Untruncated(bps, e), to * Unit(e))
  }

  lemma GrownShapes(bps: int, e: nat)
    requires 0 <= bps <= MAX_ANNUAL_INTEREST_BPS
    ensures 0 < Untruncated(bps, e) && 0 < Unit(e)
  {
    RateBounds(bps, e % SECONDS_PER_DAY);
    PowPositive(WAD + DailyRate(bps), Days(e));
    PowPositive(WAD, Days(e) + 1);
    MulLe(1, Pow(WAD + DailyRate(bps), Days(e)), RestGrowth(bps, e % SECONDS_PER_DAY));
  }

  lemma TruncatedStep(f: int, g: int, f': int, d: nat, u: int, c: int)
    requires 0 <= f && 0 <= g && 0 <= f' && 0 <= u && 0 < c
    requires Within(d + 1, WAD * u, g * c) && Within(1, f * g, f' * WAD)
    ensures Within(d + 2, f * u, f' * c)
  {
    if f == 0 {
      MulLe(0, f', c);
    } else {
      WithinScaled(d + 1, WAD * u, g * c, f);
      WithinScaled(1, f * g, f' * WAD, c);
      assert (WAD * u) * f == (f * u) * WAD;
      assert (g * c) * f == (f * g) * c;
      assert (f' * WAD) * c == (f' * c) * WAD;
      MulLe(0, f, u);
      MulLe(0, f', c);
      WithinThen(d + 1, (f * u) * WAD, (f * g) * c, 1, (f' * c) * WAD, 0);
      WithinScaled(d + 2, f * u, f' * c, WAD);
    }
  }

  /** One truncated step loses one part in WAD for each whole day and two more. */
  lemma StepIsNearlyExact(f: int, bps: int, e: nat)
    requires 0 <= bps <= MAX_ANNUAL_INTEREST_BPS && WAD <= f
    ensures GrewNearly(f, FloorMul(f, GrowthFloor(bps, e)), bps, e, Days(e) + 2)
    ensures WAD <= FloorMul(f, GrowthFloor(bps, e))
  {
    GrowthIsNearlyUntruncated(bps, e);
    GrownShapes(bps, e);
    FloorMulLower(f, GrowthFloor(bps, e));
    TruncatedStep(f, GrowthFloor(bps, e), FloorMul(f, GrowthFloor(bps, e)), Days(e), Untruncated(bps, e), Unit(e));
  }

  /** Losses `k` so far, `l` of the step and `j` of composing add up, but for `a` and `b` parts
      where they have different signs. */
  lemma StepAlgebra(from: int, f: int, f': int, k: int, j: int, l: int, a: nat, b: nat,
                    u: int, u': int, u'': int, c: int, c': int, c'': int)
    requires 0 < from && 0 <= f && 0 <= f' && 0 <= u && 0 < u' && 0 <= u'' && 0 < c && 0 < c' && 0 < c''
    requires Within(k, from * u, f * c) && Within(l, f * u', f' * c')
    requires Within(j, u'' * (c * c'), (u * u') * c'')
    requires 0 <= k * l + a * WAD && (l <= WAD || 0 <= k)
    requires 0 <= j * (k + l + a) + b * WAD && (k + l + a <= WAD || 0 <= j)
    ensures Within(k + l + a + j + b, from * u'', f' * c'')
  {
    MulLe(1, c, c');
    StepComposes(from, f, f', k, l, a, u, u', c, c');
    StepCloses(from, f', k + l + a, j, b, u, u', u'', c * c', c'');
  }

  lemma StepComposes(from: int, f: int, f': int, k: int, l: int, a: nat, u: int, u': int, c: int, c': int)
    requires 0 < from && 0 <= f && 0 <= f' && 0 <= u && 0 < u' && 0 < c && 0 < c'
    requires Within(k, from * u, f * c) && Within(l, f * u', f' * c')
    requires 0 <= k * l + a * WAD && (l <= WAD || 0 <= k)
    ensures Within(k + l + a, (from * u) * u', f' * (c * c'))
  {
    WithinScaled(k, from * u, f * c, u');
    WithinScaled(l, f * u', f' * c', c);
    assert (f * c) * u' == (f * u') * c;
    assert (f' * c') * c == f' * (c * c');
    MulLe(0, from, u);
    MulLe(0, from * u, u');
    MulLe(0, c, c');
    MulLe(0, f', c * c');
    WithinThen(k, (from * u) * u', (f * u') * c, l, f' * (c * c'), a);
  }

  lemma StepTerms(from: int, f': int, u: int, u': int, u'': int, cc: int, c'': int)
    ensures (u'' * cc) * from == (from * u'') * cc
    ensures ((u * u') * c'') * from == ((from * u) * u') * c''
    ensures (f' * cc) * c'' == (f' * c'') * cc
  {
    assert (u * u') * from == (from * u) * u';
    assert ((u * u') * c'') * from == ((u * u') * from) * c'';
  }

  lemma StepCloses(from: int, f': int, k: int, j: int, b: nat, u: int, u': int, u'': int, cc: int, c'': int)
    requires 0 < from && 0 <= f' && 0 <= u'' && 0 < cc && 0 < c''
    requires Within(k, (from * u) * u', f' * cc)
    requires Within(j, u'' * cc, (u * u') * c'')
    requires 0 <= j * k + b * WAD && (k <= WAD || 0 <= j)
    ensures Within(k + j + b, from * u'', f' * c'')
  {
    WithinScaled(k, (from * u) * u', f' * cc, c'');
    WithinScaled(j, u'' * cc, (u * u') * c'', from);
    StepTerms(from, f', u, u', u'', cc, c'');
    MulLe(0, from, u'');
    MulLe(0, from * u'', cc);
    MulLe(0, f', c'');
    MulLe(0, f' * c'', cc);
    WithinThen(j, (from * u'') * cc, ((from * u) * u') * c'', k, (f' * c'') * cc, b);
    WithinScaled(k + j + b, from * u'', f' * c'', cc);
  }

  lemma GrowthStep(from: int, f: int, bps: int, e: nat, k: int, e': nat, a: nat, b: nat)
    requires 0 <= bps <= MAX_ANNUAL_INTEREST_BPS && 0 < from && WAD <= f
    requires GrewNearly(from, f, bps, e, k)
    requires var l, j := Days(e') + 2, 1 - Gain(bps, e, e');
             && 0 <= k * l + a * WAD && (l <= WAD || 0 <= k)
             && 0 <= j * (k + l + a) + b * WAD && (k + l + a <= WAD || 0 <= j)
    ensures GrewNearly(from, FloorMul(f, GrowthFloor(bps, e')), bps, e + e',
                       k + (Days(e') + 2) + a + (1 - Gain(bps, e, e')) + b)
  {
    StepIsNearlyExact(f, bps, e');
    UntruncatedComposes(bps, e, e');
    GrownShapes(bps, e);
    GrownShapes(bps, e');
    GrownShapes(bps, e + e');
    StepAlgebra(from, f, FloorMul(f, GrowthFloor(bps, e')), k, 1 - Gain(bps, e, e'), Days(e') + 2, a, b,
                Untruncated(bps, e), Untruncated(bps, e'), Untruncated(bps, e + e'), Unit(e), Unit(e'), Unit(e + e'));
  }

  // ------------------------------------------------------------------
  // Any number of steps
  // ------------------------------------------------------------------

  /** The factor that accruals over the given seconds, one after another, lead to from `f`. */
  function InSteps(f: int, bps: int, steps: seq<nat>): int
    decreases |steps|
  {
    if |steps| == 0 then f else InSteps(FloorMul(f, GrowthFloor(bps, steps[0])), bps, steps[1..])
  }

  function Total(steps: seq<nat>): nat
    decreases |steps|
  {
    if |steps| == 0 then 0 else steps[0] + Total(steps[1..])
  }

  lemma Loosened(from: int, to: int, bps: int, e: nat, k: int, k': int)
    requires 0 <= bps <= MAX_ANNUAL_INTEREST_BPS && 0 < from
    requires GrewNearly(from, to, bps, e, k) && k <= k'
    ensures GrewNearly(from, to, bps, e, k')
  {
    GrownShapes(bps, e);
    MulLe(0, from, Untruncated(bps, e));
    WithinLoosened(k, k', from * Untruncated(bps, e), to * Unit(e));
  }

  lemma LosingStep(from: int, f: int, bps: int, e: nat, k: nat, e': nat)
    requires 0 <= bps <= MAX_ANNUAL_INTEREST_BPS && 0 < from && WAD <= f
    requires GrewNearly(from, f, bps, e, k)
    ensures GrewNearly(from, FloorMul(f, GrowthFloor(bps, e')), bps, e + e', k + Days(e') + 3)
  {
    MutualNonNegative(bps, e, e');
    StepIsNearlyExact(f, bps, e');
    GrownShapes(bps, e);
    GrownShapes(bps, e');
    GrownShapes(bps, e + e');
    UntruncatedComposes(bps, e, e');
    MulLe(0, k, Days(e') + 2);
    MulLe(0, Unit(e), Unit(e'));
    MulLe(0, Untruncated(bps, e + e'), Unit(e) * Unit(e'));
    WithinLoosened(1 - Gain(bps, e, e'), 1, Untruncated(bps, e + e') * (Unit(e) * Unit(e')),
                   (Untruncated(bps, e) * Untruncated(bps, e')) * Unit(e + e'));
    StepAlgebra(from, f, FloorMul(f, GrowthFloor(bps, e')), k, 1, Days(e') + 2, 0, 0,
                Untruncated(bps, e), Untruncated(bps, e'), Untruncated(bps, e + e'), Unit(e), Unit(e'), Unit(e + e'));
  }

  lemma DaysAdd(e: nat, e': nat)
    ensures Days(e) + Days(e') <= Days(e + e')
  {
  }

  lemma {:induction false} StepsLoseLittle(from: int, f: int, bps: int, e: nat, k: nat, steps: seq<nat>)
    requires 0 <= bps <= MAX_ANNUAL_INTEREST_BPS && 0 < from && WAD <= f
    requires GrewNearly(from, f, bps, e, k)
    ensures WAD <= InSteps(f, bps, steps)
    ensures GrewNearly(from, InSteps(f, bps, steps), bps, e + Total(steps), k + Days(Total(steps)) + 3 * |steps|)
    decreases |steps|
  {
    if |steps| == 0 {
    } else {
      var f', e', k' := FloorMul(f, GrowthFloor(bps, steps[0])), e + steps[0], k + Days(steps[0]) + 3;
      LosingStep(from, f, bps, e, k, steps[0]);
      StepIsNearlyExact(f, bps, steps[0]);
      StepsLoseLittle(from, f', bps, e', k', steps[1..]);
      DaysAdd(steps[0], Total(steps[1..]));
      Loosened(from, InSteps(f, bps, steps), bps, e + Total(steps), k' + Days(Total(steps[1..])) + 3 * |steps[1..]|,
               k + Days(Total(steps)) + 3 * |steps|);
    }
  }

  lemma SingleStepBelow(from: int, g: int, one: int, u: int, c: int)
    requires 0 <= from && 0 < c && one * WAD <= from * g && g * c <= WAD * u
    ensures one * c <= from * u
  {
    MulLe(g * c, WAD * u, from);
    MulLe(one * WAD, from * g, c);
    assert (from * g) * c == from * (g * c);
    assert (one * WAD) * c == (one * c) * WAD;
    assert from * (WAD * u) == (from * u) * WAD;
    MulCancel(one * c, from * u, WAD);
  }

  lemma WithinLess(k: int, x: int, x': int, p: int)
    requires 0 <= x' <= x && 0 <= p && Within(k, x, p)
    ensures Within(k, x', p)
  {
    if k <= WAD {
      MulLe(x', x, WAD - k);
    } else {
      MulLe(WAD - k, 0, x');
    }
  }

  /** What grew nearly as the exact growth grew nearly as a single truncated step. */
  lemma NearlyASingleStep(from: int, to: int, bps: int, e: nat, k: int)
    requires 0 <= bps <= MAX_ANNUAL_INTEREST_BPS && WAD <= from && 0 <= to
    requires GrewNearly(from, to, bps, e, k)
    ensures Within(k, FloorMul(from, GrowthFloor(bps, e)), to)
  {
    GrowthIsNearlyUntruncated(bps, e);
    GrownShapes(bps, e);
    var one, c := FloorMul(from, GrowthFloor(bps, e)), Unit(e);
    FloorMulBounds(from, GrowthFloor(bps, e));
    FloorMulLower(from, GrowthFloor(bps, e));
    SingleStepBelow(from, GrowthFloor(bps, e), one, Untruncated(bps, e), c);
    MulLe(0, one, c);
    MulLe(0, to, c);
    WithinLess(k, from * Untruncated(bps, e), one * c, to * c);
    WithinScaled(k, one, to, c);
  }

  lemma GrewNearlyFromStart(from: int, bps: int)
    ensures GrewNearly(from, from, bps, 0, 0)
  {
    assert bps * 0 * WAD == 0;
    assert Untruncated(bps, 0) == WAD && Unit(0) == WAD;
  }

  // ------------------------------------------------------------------
  // When splitting pays
  // ------------------------------------------------------------------

  /** Parts in WAD that steps are ahead of exact growth after one more step of `e'` seconds: the
      gain of composing it, less one part for each whole day and five. A lead beyond LEAD_CAP on
      either side is not followed any further. */
  function NextLead(bps: int, e: nat, lead: int, e': nat): int {
    if lead < -LEAD_CAP then lead else Min(LEAD_CAP, lead + Gain(bps, e, e') - Days(e') - 5)
  }

  function Lead(bps: int, e: nat, lead: int, steps: seq<nat>): int
    decreases |steps|
  {
    if |steps| == 0 then lead else Lead(bps, e + steps[0], NextLead(bps, e, lead, steps[0]), steps[1..])
  }

  lemma ProductAbove(a: int, b: int, bound: int, bound': int)
    requires -bound <= a <= bound && -bound' <= b <= bound' && 0 <= bound && 0 <= bound' && bound * bound' <= WAD
    ensures 0 <= a * b + WAD
  {
    if 0 <= a {
      MulLe(-b, bound', a);
      MulLe(a, bound, bound');
    } else {
      MulLe(b, bound', -a);
      MulLe(-a, bound, bound');
    }
  }

  lemma LeadingStep(from: int, f: int, bps: int, e: nat, lead: int, e': nat)
    requires 0 <= bps <= MAX_ANNUAL_INTEREST_BPS && 0 < from && WAD <= f && e' <= MAX_TERM
    requires -LEAD_CAP <= lead <= LEAD_CAP && GrewNearly(from, f, bps, e, -lead)
    ensures GrewNearly(from, FloorMul(f, GrowthFloor(bps, e')), bps, e + e', -NextLead(bps, e, lead, e'))
  {
    MutualNonNegative(bps, e, e');
    var k, l, j := -lead, Days(e') + 2, 1 - Gain(bps, e, e');
    ProductAbove(k, l, LEAD_CAP, 2_000);
    ProductAbove(j, k + l + 1, LEAD_CAP, LEAD_CAP + 2_001);
    GrowthStep(from, f, bps, e, k, e', 1, 1);
    Loosened(from, FloorMul(f, GrowthFloor(bps, e')), bps, e + e', k + l + 1 + j + 1, -NextLead(bps, e, lead, e'));
  }

  lemma {:induction false} LostLeadStays(bps: int, e: nat, lead: int, steps: seq<nat>)
    requires lead < -LEAD_CAP
    ensures Lead(bps, e, lead, steps) == lead
    decreases |steps|
  {
    if |steps| == 0 {
    } else {
      LostLeadStays(bps, e + steps[0], lead, steps[1..]);
    }
  }

  lemma {:induction false} StepsKeepLead(from: int, f: int, bps: int, e: nat, lead: int, steps: seq<nat>)
    requires 0 <= bps <= MAX_ANNUAL_INTEREST_BPS && 0 < from && WAD <= f && Total(steps) <= MAX_TERM
    requires lead <= LEAD_CAP && GrewNearly(from, f, bps, e, -lead)
    requires -LEAD_CAP <= Lead(bps, e, lead, steps)
    ensures WAD <= InSteps(f, bps, steps)
    ensures GrewNearly(from, InSteps(f, bps, steps), bps, e + Total(steps), -Lead(bps, e, lead, steps))
    decreases |steps|
  {
    if |steps| == 0 {
    } else if lead < -LEAD_CAP {
      LostLeadStays(bps, e, lead, steps);
    } else {
      LeadingStep(from, f, bps, e, lead, steps[0]);
      StepIsNearlyExact(f, bps, steps[0]);
      StepsKeepLead(from, FloorMul(f, GrowthFloor(bps, steps[0])), bps, e + steps[0],
                    NextLead(bps, e, lead, steps[0]), steps[1..]);
    }
  }

  /** From any factor, any number of steps over a term earns at least as much as a single step as
      soon as what their remainders earn on each other outweighs one part in WAD for each whole day
      and five for each step. */
  lemma SplittingPays(f: int, bps: int, steps: seq<nat>)
    requires 0 <= bps <= MAX_ANNUAL_INTEREST_BPS && WAD <= f && Total(steps) <= MAX_TERM
    requires 0 <= Lead(bps, 0, 0, steps)
    ensures FloorMul(f, GrowthFloor(bps, Total(steps))) <= InSteps(f, bps, steps)
  {
    GrewNearlyFromStart(f, bps);
    StepsKeepLead(f, f, bps, 0, 0, steps);
    Loosened(f, InSteps(f, bps, steps), bps, Total(steps), -Lead(bps, 0, 0, steps), 0);
    NearlyASingleStep(f, InSteps(f, bps, steps), bps, Total(steps), 0);
    MulCancel(FloorMul(f, GrowthFloor(bps, Total(steps))), InSteps(f, bps, steps), WAD);
  }

  // ------------------------------------------------------------------
  // Two steps
  // ------------------------------------------------------------------

  /** The factor that two accruals lead to, and the one that a single accrual leads to. */
  function InTwo(f: int, bps: int, e: nat, e': nat): int {
    FloorMul(FloorMul(f, GrowthFloor(bps, e)), GrowthFloor(bps, e'))
  }

  function InOne(f: int, bps: int, e: nat, e': nat): int {
    FloorMul(f, GrowthFloor(bps, e + e'))
  }

  /** From any factor, two steps over a term earn at least as much as one once their remainders earn
      on each other two units for each whole day of either and twelve more. */
  lemma TwoStepsPay(f: int, bps: int, e: nat, e': nat)
    requires 0 <= bps <= MAX_ANNUAL_INTEREST_BPS && WAD <= f && e + e' <= MAX_TERM
    requires 2 * (Days(e) + Days(e') + 6) * WAD <= Mutual(bps, e, e')
    ensures InOne(f, bps, e, e') <= InTwo(f, bps, e, e')
  {
    MutualNonNegative(bps, e, e');
    DivAtLeast(Mutual(bps, e, e'), 2 * WAD, Days(e) + Days(e') + 6);
    var k, l, j := Days(e) + 2, Days(e') + 2, 1 - Gain(bps, e, e');
    var first := FloorMul(f, GrowthFloor(bps, e));
    StepIsNearlyExact(f, bps, e);
    StepIsNearlyExact(first, bps, e');
    MulLe(0, k, l);
    ProductAbove(j, k + l, LEAD_CAP, 4_000);
    GrowthStep(f, first, bps, e, k, e', 0, 1);
    Loosened(f, InTwo(f, bps, e, e'), bps, e + e', k + l + 0 + j + 1, 0);
    NearlyASingleStep(f, InTwo(f, bps, e, e'), bps, e + e', 0);
    MulCancel(InOne(f, bps, e, e'), InTwo(f, bps, e, e'), WAD);
  }

  /** From a fresh market, two steps within a day earn at least as much as one just when the
      rates of the parts lose nothing to rounding or the parts earn a unit on each other. */
  lemma TwoStepsFromFresh(bps: int, e: nat, e': nat)
    requires 0 <= bps && e + e' < SECONDS_PER_DAY
    ensures InOne(WAD, bps, e, e') <= InTwo(WAD, bps, e, e')
        <==> SubDayRate(bps, e) + SubDayRate(bps, e') == SubDayRate(bps, e + e')
             || WAD <= SubDayRate(bps, e) * SubDayRate(bps, e')
  {
    var x, y, z := SubDayRate(bps, e), SubDayRate(bps, e'), SubDayRate(bps, e + e');
    SecondsWithinADay(bps, e);
    SecondsWithinADay(bps, e');
    SecondsWithinADay(bps, e + e');
    RatesAdd(bps, e, e');
    SubDayMonotone(bps, 0, e);
    SubDayMonotone(bps, 0, e');
    FloorMulUnit(WAD + x);
    FloorMulUnit(WAD + z);
    MulLe(0, x, y);
    FreshProduct(x, y);
    if WAD <= x * y {
      DivAtLeast(x * y, WAD, 1);
    } else {
      DivIs(x * y, WAD, 0);
    }
  }

  lemma FreshProduct(x: int, y: int)
    ensures FloorMul(WAD + x, WAD + y) == WAD + x + y + x * y / WAD
  {
    DivBounds(x * y, WAD);
    assert (WAD + x) * (WAD + y) == WAD * (WAD + x + y) + x * y;
    DivIs((WAD + x) * (WAD + y), WAD, WAD + x + y + x * y / WAD);
  }

  lemma TwoTruncations(f: int, x: int, y: int, first: int, two: int)
    requires 0 <= y
    requires f * x < first * WAD + WAD && first * y < two * WAD + WAD
    ensures f * (x * y) <= (two * WAD) * WAD + WAD * WAD + WAD * y
  {
    MulLe(f * x, first * WAD + WAD, y);
    assert (f * x) * y == f * (x * y);
    assert (first * WAD + WAD) * y == (first * y) * WAD + WAD * y;
    MulLe(first * y, two * WAD + WAD, WAD);
    assert (two * WAD + WAD) * WAD == (two * WAD) * WAD + WAD * WAD;
  }

  lemma RatesCompound(f: int, x: int, y: int, z: int)
    requires WAD <= f && z <= x + y + 1 && 4 * WAD <= x * y
    ensures (f * (WAD + z)) * WAD + (3 * WAD) * WAD <= f * ((WAD + x) * (WAD + y))
  {
    assert (WAD + x) * (WAD + y) == WAD * (WAD + x + y) + x * y;
    MulLe(WAD * (WAD + z) + 3 * WAD, (WAD + x) * (WAD + y), f);
    assert f * (WAD * (WAD + z) + 3 * WAD) == (f * (WAD + z)) * WAD + (3 * WAD) * f;
    MulLe(WAD, f, 3 * WAD);
  }

  lemma CompoundAlgebra(f: int, x: int, y: int, z: int, first: int, two: int, one: int)
    requires WAD <= f && 0 <= y <= WAD && z <= x + y + 1 && 4 * WAD <= x * y
    requires f * (WAD + x) < first * WAD + WAD
    requires first * (WAD + y) < two * WAD + WAD
    requires one * WAD <= f * (WAD + z)
    ensures one <= two
  {
    TwoTruncations(f, WAD + x, WAD + y, first, two);
    RatesCompound(f, x, y, z);
    MulLe(one * WAD, f * (WAD + z), WAD);
    MulLe(WAD + y, 2 * WAD, WAD);
    MulCancel(one * WAD, two * WAD, WAD);
    MulCancel(one, two, WAD);
  }

  lemma CompoundedSteps(f: int, x: int, y: int, z: int)
    requires WAD <= f && 0 <= y <= WAD && z <= x + y + 1 && 4 * WAD <= x * y
    ensures FloorMul(f, WAD + z) <= FloorMul(FloorMul(f, WAD + x), WAD + y)
  {
    var first := FloorMul(f, WAD + x);
    FloorMulBounds(f, WAD + x);
    FloorMulBounds(first, WAD + y);
    FloorMulBounds(f, WAD + z);
    CompoundAlgebra(f, x, y, z, first, FloorMul(first, WAD + y), FloorMul(f, WAD + z));
  }

  /** From any factor, two steps within a day earn at least as much as one once the parts earn
      four units on each other. */
  lemma CompoundingOutweighsRounding(f: int, bps: int, e: nat, e': nat)
    requires 0 <= bps <= MAX_ANNUAL_INTEREST_BPS && WAD <= f && e + e' < SECONDS_PER_DAY
    requires 4 * WAD <= SubDayRate(bps, e) * SubDayRate(bps, e')
    ensures InOne(f, bps, e, e') <= InTwo(f, bps, e, e')
  {
    SecondsWithinADay(bps, e);
    SecondsWithinADay(bps, e');
    SecondsWithinADay(bps, e + e');
    RatesAdd(bps, e, e');
    RateBounds(bps, e');
    CompoundedSteps(f, SubDayRate(bps, e), SubDayRate(bps, e'), SubDayRate(bps, e + e'));
  }

  // ------------------------------------------------------------------
  // The accruals of a market
  // ------------------------------------------------------------------

  /** Seconds that each accrual covers; none for one that fails. */
  function StepsOf(m: MarketState, cfg: Config, times: seq<int>): (steps: seq<nat>)
    requires Inv(m)
    ensures |steps| == |times|
    decreases |times|
  {
    if |times| == 0 then []
    else
      var a := Accrue(m, cfg, times[0]);
      if a.Failure? then [0] + StepsOf(m, cfg, times[1..])
      else
        AccrueFacts(m, cfg, times[0]);
        [Min(times[0], m.maturity) - m.lastAccrual] + StepsOf(a.value, cfg, times[1..])
  }

  lemma SingleAccrual(m: MarketState, cfg: Config, now: int)
    requires Inv(m) && m.lastAccrual <= now && Accrue(m, cfg, now).Success?
    ensures Accrue(m, cfg, now).value.scaleFactor
         == FloorMul(m.scaleFactor, GrowthFloor(m.annualBps, Min(now, m.maturity) - m.lastAccrual))
  {
    if m.lastAccrual < Min(now, m.maturity) {
      AccrueGrowth(m, cfg, now);
    } else {
      StartOfDay(m.annualBps, 0);
      FloorMulUnit(m.scaleFactor);
    }
  }

  /** One accrual is one step, of no seconds if it fails. */
  lemma AccruesInAStep(m: MarketState, cfg: Config, now: int) returns (m': MarketState, step: nat)
    requires Inv(m)
    ensures m' == match Accrue(m, cfg, now) case Success(a) => a case Failure(_) => m
    ensures step == if Accrue(m, cfg, now).Success? then Min(now, m.maturity) - m.lastAccrual else 0
    ensures Inv(m') && m'.annualBps == m.annualBps && m'.maturity == m.maturity
    ensures m'.scaleFactor == FloorMul(m.scaleFactor, GrowthFloor(m.annualBps, step))
    ensures m'.lastAccrual == m.lastAccrual + step
  {
    m', step := m, 0;
    if Accrue(m, cfg, now).Success? {
      AccrueFacts(m, cfg, now);
      SingleAccrual(m, cfg, now);
      m', step := Accrue(m, cfg, now).value, Min(now, m.maturity) - m.lastAccrual;
    } else {
      StartOfDay(m.annualBps, 0);
      FloorMulUnit(m.scaleFactor);
    }
  }

  lemma {:induction false} AccruesInSteps(m: MarketState, cfg: Config, times: seq<int>)
    requires Inv(m)
    ensures var a, steps := AccrueAll(m, cfg, times), StepsOf(m, cfg, times);
            && a.scaleFactor == InSteps(m.scaleFactor, m.annualBps, steps)
            && a.lastAccrual == m.lastAccrual + Total(steps)
            && a.lastAccrual <= m.maturity
    decreases |times|
  {
    if |times| == 0 {
    } else {
      var m', step := AccruesInAStep(m, cfg, times[0]);
      var rest := StepsOf(m', cfg, times[1..]);
      assert StepsOf(m, cfg, times) == [step] + rest;
      assert ([step] + rest)[1..] == rest;
      AccruesInSteps(m', cfg, times[1..]);
    }
  }

  /** Splitting the accruals of a market at any times whatever costs at most one part in WAD for each
      whole day and three for each step against a single accrual to the same moment, and nothing
      at all once the steps are in the lead. */
  lemma SplittingCostsLittle(m: MarketState, cfg: Config, times: seq<int>)
    requires Inv(m)
    ensures var a := AccrueAll(m, cfg, times);
            var single := Accrue(m, cfg, a.lastAccrual);
            && m.lastAccrual <= a.lastAccrual <= m.maturity
            && (single.Success? ==>
                  && Within(Days(a.lastAccrual - m.lastAccrual) + 3 * |times|, single.value.scaleFactor, a.scaleFactor)
                  && (0 <= Lead(m.annualBps, 0, 0, StepsOf(m, cfg, times))
                      ==> single.value.scaleFactor <= a.scaleFactor))
  {
    AccruesInSteps(m, cfg, times);
    var a, steps := AccrueAll(m, cfg, times), StepsOf(m, cfg, times);
    if Accrue(m, cfg, a.lastAccrual).Success? {
      SingleAccrual(m, cfg, a.lastAccrual);
      StepsNearSingle(m.scaleFactor, m.annualBps, steps);
    }
  }

  lemma StepsNearSingle(f: int, bps: int, steps: seq<nat>)
    requires 0 <= bps <= MAX_ANNUAL_INTEREST_BPS && WAD <= f && Total(steps) <= MAX_TERM
    ensures Within(Days(Total(steps)) + 3 * |steps|, FloorMul(f, GrowthFloor(bps, Total(steps))),
                   InSteps(f, bps, steps))
    ensures 0 <= Lead(bps, 0, 0, steps) ==> FloorMul(f, GrowthFloor(bps, Total(steps))) <= InSteps(f, bps, steps)
  {
    GrewNearlyFromStart(f, bps);
    StepsLoseLittle(f, f, bps, 0, 0, steps);
    NearlyASingleStep(f, InSteps(f, bps, steps), bps, Total(steps), Days(Total(steps)) + 3 * |steps|);
    if 0 <= Lead(bps, 0, 0, steps) {
      SplittingPays(f, bps, steps);
    }
  }
}
