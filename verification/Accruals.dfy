/** Interest and fees over many accruals, and the rounding of deposits. */
module Accruals {
  import opened Outcomes
  import opened FixedPoint
  import opened Interest
  import opened Positions
  import opened Markets
  import opened Invariants

  /** Accruals at the given times; an accrual that fails changes nothing. */
  function AccrueAll(m: MarketState, cfg: Config, times: seq<int>): MarketState
    decreases |times|
  {
    if |times| == 0 then m
    else
      var m' := match Accrue(m, cfg, times[0]) case Success(a) => a case Failure(_) => m;
      AccrueAll(m', cfg, times[1..])
  }

  // ------------------------------------------------------------------
  // The scale factor
  // ------------------------------------------------------------------

  lemma AccrueGrowsAtMost(m: MarketState, cfg: Config, now: int, from: int, t: nat)
    requires Inv(m) && Accrue(m, cfg, now).Success? && 0 < from
    requires GrewAtMost(from, m.scaleFactor, SECONDS_PER_YEAR, t)
    ensures var a := Accrue(m, cfg, now).value;
            && m.lastAccrual <= a.lastAccrual
            && GrewAtMost(from, a.scaleFactor, SECONDS_PER_YEAR, t + (a.lastAccrual - m.lastAccrual))
  {
    AccrueFacts(m, cfg, now);
    var e := Min(now, m.maturity) - m.lastAccrual;
    if e > 0 {
      AccrueGrowth(m, cfg, now);
      var g := GrowthFloor(m.annualBps, e);
      GrowthBounded(m.annualBps, e);
      FloorMulBounds(m.scaleFactor, g);
      GrewChain(from, m.scaleFactor, g, FloorMul(m.scaleFactor, g), SECONDS_PER_YEAR, t, e);
    }
  }

  lemma GrewChain(from: int, a: int, g: int, c: int, n: int, t: nat, u: nat)
    requires 0 < from && 0 < n && 0 <= a && 0 <= g
    requires GrewAtMost(from, a, n, t) && GrewAtMost(WAD, g, n, u) && c * WAD <= a * g
    ensures GrewAtMost(from, c, n, t + u)
  {
    Powers.PowAdd(n, t, u);
    Powers.PowAdd(n + 1, t, u);
    Powers.PowPositive(n, t);
    Powers.PowPositive(n, u);
    Powers.PowPositive(n + 1, t);
    Powers.PowPositive(n + 1, u);
    ChainAlgebra(WAD, from, a, g, c, Powers.Pow(n, t), Powers.Pow(n, u), Powers.Pow(n + 1, t), Powers.Pow(n + 1, u));
  }

  lemma ChainAlgebra(w: int, from: int, a: int, g: int, c: int, pt: int, pu: int, qt: int, qu: int)
    requires 0 < w && 0 < from && 0 <= a && 0 <= g && 0 < pt && 0 < pu && 0 < qt && 0 < qu
    requires a * pt <= from * qt && g * pu <= w * qu && c * w <= a * g
    ensures c * (pt * pu) <= from * (qt * qu)
  {
    MulLe(0, g, pu);
    MulLe(a * pt, from * qt, g * pu);
    MulLe(0, from, qt);
    MulLe(g * pu, w * qu, from * qt);
    Powers.Regroup(a, g, pt, pu);
    assert (from * qt) * (w * qu) == (from * (qt * qu)) * w;
    MulLe(0, pt, pu);
    MulLe(c * w, a * g, pt * pu);
    assert (c * w) * (pt * pu) == (c * (pt * pu)) * w;
    MulCancel(c * (pt * pu), from * (qt * qu), w);
  }

  lemma AccrueOnce(m: MarketState, cfg: Config, now: int, from: int, t: nat) returns (m': MarketState, t': nat)
    requires Inv(m) && 0 < from && GrewAtMost(from, m.scaleFactor, SECONDS_PER_YEAR, t)
    ensures m' == match Accrue(m, cfg, now) case Success(a) => a case Failure(_) => m
    ensures Inv(m') && m.lastAccrual <= m'.lastAccrual && t' == t + (m'.lastAccrual - m.lastAccrual)
    ensures GrewAtMost(from, m'.scaleFactor, SECONDS_PER_YEAR, t')
  {
    m', t' := m, t;
    if Accrue(m, cfg, now).Success? {
      AccrueGrowsAtMost(m, cfg, now, from, t);
      AccrueFacts(m, cfg, now);
      m' := Accrue(m, cfg, now).value;
      t' := t + (m'.lastAccrual - m.lastAccrual);
    }
  }

  lemma {:induction false} AccrueAllBounded(m: MarketState, cfg: Config, times: seq<int>, from: int, t: nat)
    requires Inv(m) && 0 < from && GrewAtMost(from, m.scaleFactor, SECONDS_PER_YEAR, t)
    ensures var a := AccrueAll(m, cfg, times);
            && Inv(a) && m.lastAccrual <= a.lastAccrual
            && GrewAtMost(from, a.scaleFactor, SECONDS_PER_YEAR, t + (a.lastAccrual - m.lastAccrual))
    decreases |times|
  {
    if |times| == 0 {
    } else {
      var m', t' := AccrueOnce(m, cfg, times[0], from, t);
      AccrueAllBounded(m', cfg, times[1..], from, t');
    }
  }

  /** However accruals are timed, from creation on, the scale factor stays below per-second
      compounding at 100% a year over the seconds accrued so far. */
  lemma ScaleFactorBounded(m: MarketState, cfg: Config, times: seq<int>)
    requires Inv(m)
    ensures var a := AccrueAll(m, cfg, times);
            && m.lastAccrual <= a.lastAccrual
            && GrewAtMost(m.scaleFactor, a.scaleFactor, SECONDS_PER_YEAR, a.lastAccrual - m.lastAccrual)
  {
    assert Powers.Pow(SECONDS_PER_YEAR, 0) == 1 && Powers.Pow(SECONDS_PER_YEAR + 1, 0) == 1;
    AccrueAllBounded(m, cfg, times, m.scaleFactor, 0);
  }

  /** In every reachable state the factor is between 1 and 243, and an accrual can fail only
      because the clock went back or because its fee does not fit. */
  lemma AccrualNeverOverflows(m: MarketState, cfg: Config, now: int)
    requires Inv(m)
    ensures WAD <= m.scaleFactor <= MAX_GROWTH * WAD
    ensures Accrue(m, cfg, now) == Failure(InvalidTimestamp) <==> Min(now, m.maturity) < m.lastAccrual
    ensures cfg.feeRateBps == 0 && m.lastAccrual <= Min(now, m.maturity) ==> Accrue(m, cfg, now).Success?
  {
    GrownWithinTerm(m.scaleFactor, TermUsed(m));
    if m.lastAccrual < Min(now, m.maturity) {
      AccrueGrowth(m, cfg, now);
    }
  }

  /** Accruing later never leaves a smaller scale factor. */
  lemma LaterIsNotLess(m: MarketState, cfg: Config, now: int, now': int)
    requires Inv(m) && now <= now'
    requires Accrue(m, cfg, now).Success? && Accrue(m, cfg, now').Success?
    ensures Accrue(m, cfg, now).value.scaleFactor <= Accrue(m, cfg, now').value.scaleFactor
  {
    var e, e' := Min(now, m.maturity) - m.lastAccrual, Min(now', m.maturity) - m.lastAccrual;
    if 0 < e {
      AccrueGrowth(m, cfg, now);
      AccrueGrowth(m, cfg, now');
      GrowthMonotoneInTime(m.annualBps, e, e');
      FloorMulMono(m.scaleFactor, m.scaleFactor, GrowthFloor(m.annualBps, e), GrowthFloor(m.annualBps, e'));
    } else if 0 < e' {
      AccrueGrowth(m, cfg, now');
    }
  }

  lemma SecondsWithinADay(bps: int, seconds: nat)
    requires seconds < SECONDS_PER_DAY
    ensures GrowthFloor(bps, seconds) == WAD + SubDayRate(bps, seconds)
  {
  }

  /** Splitting an accrual can lose to rounding: at one basis point, two steps of three
      seconds end one unit below a single step of six. */
  lemma TwoStepsCanEarnLess()
    ensures GrowthFloor(1, 3) == WAD + 9_512_937
    ensures GrowthFloor(1, 6) == WAD + 19_025_875
    ensures FloorMul(FloorMul(WAD, GrowthFloor(1, 3)), GrowthFloor(1, 3))
          == FloorMul(WAD, GrowthFloor(1, 6)) - 1
  {
    SecondsWithinADay(1, 3);
    SecondsWithinADay(1, 6);
    DivIs(1 * 3 * WAD, SECONDS_PER_YEAR * BPS, 9_512_937);
    DivIs(1 * 6 * WAD, SECONDS_PER_YEAR * BPS, 19_025_875);
    FloorMulUnit(WAD + 9_512_937);
    FloorMulUnit(WAD + 19_025_875);
    DivIs((WAD + 9_512_937) * (WAD + 9_512_937), WAD, WAD + 19_025_874);
  }

  // ------------------------------------------------------------------
  // Fees
  // ------------------------------------------------------------------

  lemma FeeAlgebra(w: int, r: int, g: int, share: int, fee: int, s: int, f: int, f': int, r': int, cap: int)
    requires 0 < w && 0 <= r && 0 <= s && w <= g && 0 <= share <= g - w
    requires fee * w <= r * share
    requires r * w <= s * f
    requires f * g < f' * w + w
    requires s * f' < r' * w + w
    requires s <= cap * w
    ensures fee <= (r' - r) + cap
  {
    MulLe(share, g - w, r);
    ScaledGrowth(w, r, g, s, f, f');
    FeeChain(w, fee, r * g, r, s * f', r', s, cap);
  }

  lemma FeeChain(w: int, fee: int, rg: int, r: int, sf: int, r': int, s: int, cap: int)
    requires 0 < w && fee * w <= rg - r * w && rg * w <= sf * w + s * w
    requires sf < r' * w + w && s <= cap * w
    ensures fee <= (r' - r) + cap
  {
    assert (sf + s) * w == sf * w + s * w;
    MulCancel(rg, sf + s, w);
    assert (r' - r + cap + 1) * w == r' * w + w + cap * w - r * w;
    MulCancelLt(fee, r' - r + cap + 1, w);
  }

  lemma ScaledGrowth(w: int, r: int, g: int, s: int, f: int, f': int)
    requires 0 <= s && w <= g && 0 < w
    requires r * w <= s * f
    requires f * g < f' * w + w
    ensures (r * g) * w <= (s * f') * w + s * w
  {
    MulLe(r * w, s * f, g);
    MulLe(f * g, f' * w + w, s);
    assert (r * w) * g == (r * g) * w;
    assert (s * f) * g == s * (f * g);
    assert s * (f' * w + w) == (s * f') * w + s * w;
  }

  /** One accrual charges no more than the growth of the lenders' claims, up to one unit for
      each WAD of scaled supply. */
  lemma FeeWithinInterest(m: MarketState, cfg: Config, now: int)
    requires Inv(m) && Accrue(m, cfg, now).Success?
    ensures var a := Accrue(m, cfg, now).value;
            && m.fees <= a.fees
            && a.fees - m.fees <= RemainingClaims(a) - RemainingClaims(m) + CeilDiv(m.scaledSupply, WAD)
            && a.scaledSupply == m.scaledSupply
  {
    AccrueFacts(m, cfg, now);
    var a := Accrue(m, cfg, now).value;
    CeilBounds(m.scaledSupply, WAD);
    DivNonNegative(m.scaledSupply + WAD - 1, WAD);
    if m.lastAccrual < Min(now, m.maturity) {
      AccrueGrowth(m, cfg, now);
      var g := GrowthFloor(m.annualBps, Min(now, m.maturity) - m.lastAccrual);
      var share := (g - WAD) * cfg.feeRateBps / BPS;
      var r, r' := RemainingClaims(m), RemainingClaims(a);
      RemainingClaimsBounds(m);
      MulLe(0, g - WAD, cfg.feeRateBps);
      MulLe(cfg.feeRateBps, BPS, g - WAD);
      DivNonNegative((g - WAD) * cfg.feeRateBps, BPS);
      DivAtMost((g - WAD) * cfg.feeRateBps, BPS, g - WAD);
      MulLe(0, r, share);
      if 0 < cfg.feeRateBps {
        FeeNonNegative(m.scaledSupply, m.scaleFactor, g, cfg.feeRateBps);
        DivBounds(r * share, WAD);
      }
      DivBounds(m.scaledSupply * m.scaleFactor, WAD);
      DivBounds(m.scaledSupply * a.scaleFactor, WAD);
      FloorMulBounds(m.scaleFactor, g);
      FeeAlgebra(WAD, r, g, share, a.fees - m.fees, m.scaledSupply, m.scaleFactor, a.scaleFactor, r',
                 CeilDiv(m.scaledSupply, WAD));
    }
  }

  /** Calls that bring interest up to date before anything else. */
  predicate Accrues(ix: Instruction) {
    !ix.IxDonate? && !ix.IxClaimHaircut? && !ix.IxForceClaimHaircut? && !ix.IxWithdrawExcess? && !ix.IxClosePosition?
  }

  /** The market as the accrual of a successful call leaves it. */
  function Accrued(m: MarketState, c: Call): MarketState {
    if Accrues(c.ix) && Process(m, c).Success? && Accrue(m, c.cfg, c.now).Success?
    then Accrue(m, c.cfg, c.now).value
    else m
  }

  /** Interest that lenders earn over a run: the growth of their claims at each accrual. */
  function InterestOver(m: MarketState, calls: seq<Call>): int
    decreases |calls|
  {
    if |calls| == 0 then 0
    else RemainingClaims(Accrued(m, calls[0])) - RemainingClaims(m) + InterestOver(Step(m, calls[0]), calls[1..])
  }

  /** One unit at each successful accrual for each WAD of the supply it finds. */
  function RoundingOver(m: MarketState, calls: seq<Call>): int
    decreases |calls|
  {
    if |calls| == 0 then 0
    else (if Accrues(calls[0].ix) && Process(m, calls[0]).Success? then CeilDiv(m.scaledSupply, WAD) else 0)
         + RoundingOver(Step(m, calls[0]), calls[1..])
  }

  /** Tokens that fee sweeps take over a run. */
  function FeesTaken(m: MarketState, calls: seq<Call>): int
    decreases |calls|
  {
    if |calls| == 0 then 0
    else (if calls[0].ix.IxCollectFees? then m.vault - Step(m, calls[0]).vault else 0)
         + FeesTaken(Step(m, calls[0]), calls[1..])
  }

  lemma LeaveMovesNoFees(m: MarketState, l: Lender, scaled: int, normalized: int, payout: int)
    requires Leave(m, l, scaled, normalized, payout).Success?
    ensures Leave(m, l, scaled, normalized, payout).value.fees == m.fees
  {
  }

  lemma WithdrawMovesNoFees(m: MarketState, cfg: Config, now: int, l: Lender, x: u128, minPayout: u64)
    requires Withdraw(m, cfg, now, l, x, minPayout).Success?
    ensures Accrue(m, cfg, now).Success?
    ensures Withdraw(m, cfg, now, l, x, minPayout).value.fees == Accrue(m, cfg, now).value.fees
  {
    WithdrawUnfolds(m, cfg, now, l, x, minPayout);
    var s := Settle(Accrue(m, cfg, now).value).value;
    var e := ExitFrom(s, l, if x == 0 then s.book[l].scaledBalance else x);
    WithdrawShareUnfolds(s, l, x, minPayout);
    LeaveMovesNoFees(s, l, e.scaled, e.normalized, e.payout);
  }

  lemma ForceCloseMovesNoFees(m: MarketState, cfg: Config, now: int, l: Lender)
    requires ForceClose(m, cfg, now, l).Success?
    ensures Accrue(m, cfg, now).Success?
    ensures ForceClose(m, cfg, now, l).value.fees == Accrue(m, cfg, now).value.fees
  {
    ForceCloseUnfolds(m, cfg, now, l);
    var s := Settle(Accrue(m, cfg, now).value).value;
    var e := ExitFrom(s, l, s.book[l].scaledBalance);
    LeaveMovesNoFees(s, l, e.scaled, e.normalized, e.payout);
  }

  lemma PayClaimMovesNoFees(m: MarketState, l: Lender)
    requires PayClaim(m, l).Success?
    ensures PayClaim(m, l).value.fees == m.fees
  {
  }

  /** A call changes the fees by its accrual and by what a fee sweep takes. */
  lemma FeesOfCall(m: MarketState, c: Call)
    requires Process(m, c).Success?
    ensures Accrues(c.ix) ==> Accrue(m, c.cfg, c.now).Success?
    ensures var m' := Process(m, c).value.0;
            m'.fees + (if c.ix.IxCollectFees? then m.vault - m'.vault else 0) == Accrued(m, c).fees
  {
    match c.ix
    case IxWithdraw(l, x, minPayout) => WithdrawMovesNoFees(m, c.cfg, c.now, l, x, minPayout);
    case IxForceClose(l) => ForceCloseMovesNoFees(m, c.cfg, c.now, l);
    case IxClaimHaircut(l) => PayClaimMovesNoFees(m, l);
    case IxForceClaimHaircut(l) => PayClaimMovesNoFees(m, l);
    case _ =>
  }

  lemma CallWithinInterest(m: MarketState, c: Call)
    requires Inv(m)
    ensures Step(m, c).fees + (if c.ix.IxCollectFees? then m.vault - Step(m, c).vault else 0) - m.fees
         <= RemainingClaims(Accrued(m, c)) - RemainingClaims(m)
            + if Accrues(c.ix) && Process(m, c).Success? then CeilDiv(m.scaledSupply, WAD) else 0
  {
    DivNonNegative(m.scaledSupply + WAD - 1, WAD);
    if Process(m, c).Success? {
      FeesOfCall(m, c);
      if Accrues(c.ix) {
        FeeWithinInterest(m, c.cfg, c.now);
      }
    }
  }

  /** Over any run, with deposits and fee rates changing as they may, all fees charged, swept or
      not, stay within the interest up to one unit at each accrual for each WAD of supply. */
  lemma {:induction false} FeesWithinInterest(m: MarketState, calls: seq<Call>)
    requires Inv(m)
    ensures Run(m, calls).fees + FeesTaken(m, calls) - m.fees <= InterestOver(m, calls) + RoundingOver(m, calls)
    decreases |calls|
  {
    if |calls| == 0 {
    } else {
      CallWithinInterest(m, calls[0]);
      if Process(m, calls[0]).Success? {
        ProcessKeepsInv(m, calls[0]);
      }
      FeesWithinInterest(Step(m, calls[0]), calls[1..]);
    }
  }

  // ------------------------------------------------------------------
  // The exact fee
  // ------------------------------------------------------------------

  /** The fee at `rate` on claims `r` that grow by the factor `growth`. */
  function FeeOn(r: int, growth: int, rate: FeeRate): int {
    r * ((growth - WAD) * rate / BPS) / WAD
  }

  /** The growth factor of an accrual at `now`. */
  function GrowthTo(m: MarketState, now: int): int
    requires m.lastAccrual <= Min(now, m.maturity)
  {
    GrowthFloor(m.annualBps, Min(now, m.maturity) - m.lastAccrual)
  }

  /** An accrual charges exactly the fee rate's share of the growth on the claims before it. */
  lemma AccrualCharges(m: MarketState, cfg: Config, now: int)
    requires Inv(m) && Accrue(m, cfg, now).Success?
    ensures m.lastAccrual <= Min(now, m.maturity)
    ensures Accrue(m, cfg, now).value.fees - m.fees == FeeOn(RemainingClaims(m), GrowthTo(m, now), cfg.feeRateBps)
  {
    var r := RemainingClaims(m);
    if m.lastAccrual < Min(now, m.maturity) {
      AccrueGrowth(m, cfg, now);
      if 0 < cfg.feeRateBps {
        FeeNonNegative(m.scaledSupply, m.scaleFactor, GrowthTo(m, now), cfg.feeRateBps);
      } else {
        assert (GrowthTo(m, now) - WAD) * 0 == 0 && r * 0 == 0;
      }
    } else {
      StartOfDay(m.annualBps, 0);
      assert r * 0 == 0;
    }
  }

  lemma ClaimsGrowth(w: int, s: int, f: int, f': int, g: int, r: int, r': int)
    requires 0 < w && 0 <= s && 0 < g
    requires s * f < r * w + w && f' * w <= f * g && r' * w <= s * f'
    ensures (r' - r) * w <= r * (g - w) + g
  {
    MulLe(f' * w, f * g, s);
    assert s * (f' * w) == (s * f') * w && s * (f * g) == (s * f) * g;
    MulLe(r' * w, s * f', w);
    MulLe(s * f, (r + 1) * w, g);
    assert ((r + 1) * w) * g == ((r + 1) * g) * w;
    MulCancel(r' * w, (r + 1) * g, w);
    assert (r + 1) * g == r * (g - w) + r * w + g;
  }

  lemma ShareSwaps(w: int, b: int, r: int, rate: int, g: int, share: int, grown: int)
    ensures rate * (grown * w) == (rate * grown) * w
    ensures rate * (r * (g - w) + g) == r * ((g - w) * rate) + rate * g
    ensures r * (share * b + b) == (r * share) * b + r * b
  {
    assert rate * (r * (g - w)) == r * ((g - w) * rate);
    assert r * (share * b) == (r * share) * b;
  }

  lemma ShareAlgebra(w: int, b: int, r: int, rate: int, g: int, share: int, fee: int, grown: int, c: int, most: int)
    requires 0 < w && 0 < b && 0 <= r && 0 <= rate
    requires grown * w <= r * (g - w) + g && g <= most * w && r <= c * w
    requires (g - w) * rate < share * b + b && r * share < fee * w + w
    ensures rate * grown <= b * (fee + 1 + c) + rate * most
  {
    MulLe(grown * w, r * (g - w) + g, rate);
    MulLe((g - w) * rate, share * b + b, r);
    MulLe(r * share, fee * w + w, b);
    MulLe(r, c * w, b);
    MulLe(g, most * w, rate);
    ShareSwaps(w, b, r, rate, g, share, grown);
    ShareTerms(w, b, rate, fee, c, most);
    MulCancel(rate * grown, b * (fee + 1 + c) + rate * most, w);
  }

  lemma ShareTerms(w: int, b: int, rate: int, fee: int, c: int, most: int)
    ensures (b * (fee + 1 + c) + rate * most) * w == (fee * w + w) * b + (c * w) * b + rate * (most * w)
  {
    assert (b * (fee + 1 + c)) * w == b * ((fee + 1 + c) * w);
    assert (fee + 1 + c) * w == fee * w + w + c * w;
    assert (rate * most) * w == rate * (most * w);
  }

  /** What rounding may cost the protocol in one accrual, in basis points of a unit. */
  function FeeSlack(m: MarketState, rate: FeeRate): int {
    BPS * (1 + CeilDiv(RemainingClaims(m), WAD)) + rate * MAX_GROWTH
  }

  lemma FeeOnAtLeast(r: int, growth: int, rate: FeeRate, grown: int)
    requires 0 <= r && growth <= MAX_GROWTH * WAD && grown * WAD <= r * (growth - WAD) + growth
    ensures rate * grown <= BPS * (FeeOn(r, growth, rate) + 1 + CeilDiv(r, WAD)) + rate * MAX_GROWTH
  {
    var share := (growth - WAD) * rate / BPS;
    DivBounds((growth - WAD) * rate, BPS);
    DivBounds(r * share, WAD);
    CeilBounds(r, WAD);
    ShareAlgebra(WAD, BPS, r, rate, growth, share, FeeOn(r, growth, rate), grown, CeilDiv(r, WAD), MAX_GROWTH);
  }

  lemma ClaimsGrowTo(m: MarketState, cfg: Config, now: int)
    requires Inv(m) && Accrue(m, cfg, now).Success?
    ensures m.lastAccrual <= Min(now, m.maturity) && GrowthTo(m, now) <= MAX_GROWTH * WAD
    ensures var g, r := GrowthTo(m, now), RemainingClaims(m);
            (RemainingClaims(Accrue(m, cfg, now).value) - r) * WAD <= r * (g - WAD) + g
  {
    var a, g := Accrue(m, cfg, now).value, GrowthTo(m, now);
    RemainingClaimsBounds(m);
    if m.lastAccrual < Min(now, m.maturity) {
      AccrueGrowth(m, cfg, now);
      GrowthWithinTerm(m.annualBps, Min(now, m.maturity) - m.lastAccrual);
      FloorMulBounds(m.scaleFactor, g);
      DivBounds(m.scaledSupply * m.scaleFactor, WAD);
      DivBounds(m.scaledSupply * a.scaleFactor, WAD);
      ClaimsGrowth(WAD, m.scaledSupply, m.scaleFactor, a.scaleFactor, g, RemainingClaims(m), RemainingClaims(a));
    } else {
      StartOfDay(m.annualBps, 0);
      assert RemainingClaims(m) * 0 == 0;
    }
  }

  /** The fee is at least the fee rate's share of what the claims grow by, less the rounding. */
  lemma FeeAtLeastShare(m: MarketState, cfg: Config, now: int)
    requires Inv(m) && Accrue(m, cfg, now).Success?
    ensures var a := Accrue(m, cfg, now).value;
            cfg.feeRateBps * (RemainingClaims(a) - RemainingClaims(m))
            <= BPS * (a.fees - m.fees) + FeeSlack(m, cfg.feeRateBps)
  {
    AccrualCharges(m, cfg, now);
    ClaimsGrowTo(m, cfg, now);
    RemainingClaimsBounds(m);
    FeeOnAtLeast(RemainingClaims(m), GrowthTo(m, now), cfg.feeRateBps,
                 RemainingClaims(Accrue(m, cfg, now).value) - RemainingClaims(m));
  }

  lemma GrowthWithinTerm(bps: int, e: nat)
    requires 0 <= bps <= MAX_ANNUAL_INTEREST_BPS && e <= MAX_TERM
    ensures 0 < GrowthFloor(bps, e) <= MAX_GROWTH * WAD
  {
    GrowthBounded(bps, e);
    GrownWithinTerm(GrowthFloor(bps, e), e);
  }

  lemma GrownWithinTerm(f: int, t: nat)
    requires GrewAtMost(WAD, f, SECONDS_PER_YEAR, t) && t <= MAX_TERM
    ensures f <= MAX_GROWTH * WAD
  {
    FiveYears(SECONDS_PER_YEAR, t);
    Powers.PowPositive(SECONDS_PER_YEAR, t);
    MulLe(Powers.Pow(SECONDS_PER_YEAR + 1, t), MAX_GROWTH * Powers.Pow(SECONDS_PER_YEAR, t), WAD);
    MulCancel(f, MAX_GROWTH * WAD, Powers.Pow(SECONDS_PER_YEAR, t));
  }

  /** The fee that the accrual of a call charges, if the call succeeds. */
  function FeeOfCall(m: MarketState, c: Call): int {
    if Accrues(c.ix) && Process(m, c).Success? && m.lastAccrual <= Min(c.now, m.maturity)
    then FeeOn(RemainingClaims(m), GrowthTo(m, c.now), c.cfg.feeRateBps)
    else 0
  }

  /** Fees charged over a run, accrual by accrual. */
  function FeesCharged(m: MarketState, calls: seq<Call>): int
    decreases |calls|
  {
    if |calls| == 0 then 0 else FeeOfCall(m, calls[0]) + FeesCharged(Step(m, calls[0]), calls[1..])
  }

  /** The fee rate's share of the interest of a call, in basis points of a unit. */
  function ShareOfCall(m: MarketState, c: Call): int {
    c.cfg.feeRateBps * (RemainingClaims(Accrued(m, c)) - RemainingClaims(m))
  }

  function SlackOfCall(m: MarketState, c: Call): int {
    if Accrues(c.ix) && Process(m, c).Success? then FeeSlack(m, c.cfg.feeRateBps) else 0
  }

  /** The fee rates' shares of the interest of a run, and what rounding may cost the protocol. */
  function SharesOver(m: MarketState, calls: seq<Call>): int
    decreases |calls|
  {
    if |calls| == 0 then 0 else ShareOfCall(m, calls[0]) + SharesOver(Step(m, calls[0]), calls[1..])
  }

  function SlackOver(m: MarketState, calls: seq<Call>): int
    decreases |calls|
  {
    if |calls| == 0 then 0 else SlackOfCall(m, calls[0]) + SlackOver(Step(m, calls[0]), calls[1..])
  }

  lemma AccruingCallCharges(m: MarketState, c: Call)
    requires Inv(m) && Process(m, c).Success? && Accrues(c.ix)
    ensures Accrued(m, c).fees - m.fees == FeeOfCall(m, c)
    ensures ShareOfCall(m, c) <= BPS * FeeOfCall(m, c) + SlackOfCall(m, c)
  {
    FeesOfCall(m, c);
    AccrualCharges(m, c.cfg, c.now);
    FeeAtLeastShare(m, c.cfg, c.now);
  }

  lemma OtherCallsChargeNothing(m: MarketState, c: Call)
    requires Process(m, c).Failure? || !Accrues(c.ix)
    ensures FeeOfCall(m, c) == ShareOfCall(m, c) == SlackOfCall(m, c) == 0 && Accrued(m, c) == m
  {
    assert c.cfg.feeRateBps * 0 == 0;
  }

  lemma CallCharges(m: MarketState, c: Call)
    requires Inv(m)
    ensures Step(m, c).fees + (if c.ix.IxCollectFees? then m.vault - Step(m, c).vault else 0) - m.fees
        == FeeOfCall(m, c)
    ensures ShareOfCall(m, c) <= BPS * FeeOfCall(m, c) + SlackOfCall(m, c)
  {
    if Process(m, c).Success? {
      FeesOfCall(m, c);
    }
    if Process(m, c).Success? && Accrues(c.ix) {
      AccruingCallCharges(m, c);
    } else {
      OtherCallsChargeNothing(m, c);
    }
  }

  /** Over any run the fees, swept or not, are exactly what its accruals charge, and at least the fee
      rates' shares of the interest less the rounding. */
  lemma {:induction false} FeesAreCharged(m: MarketState, calls: seq<Call>)
    requires Inv(m)
    ensures Run(m, calls).fees + FeesTaken(m, calls) - m.fees == FeesCharged(m, calls)
    ensures SharesOver(m, calls) <= BPS * FeesCharged(m, calls) + SlackOver(m, calls)
    decreases |calls|
  {
    if |calls| == 0 {
    } else {
      CallCharges(m, calls[0]);
      if Process(m, calls[0]).Success? {
        ProcessKeepsInv(m, calls[0]);
      }
      FeesAreCharged(Step(m, calls[0]), calls[1..]);
    }
  }

  // ------------------------------------------------------------------
  // Deposits
  // ------------------------------------------------------------------

  /** Shares for `amount` at factor `f`, and what they are worth right away. */
  lemma RoundTrip(amount: int, f: int)
    requires 0 <= amount && WAD <= f
    ensures (amount * WAD / f) * f / WAD == amount - CeilDiv((amount * WAD) % f, WAD)
    ensures 0 <= CeilDiv((amount * WAD) % f, WAD) <= CeilDiv(f, WAD)
    ensures CeilDiv((amount * WAD) % f, WAD) <= 1 <==> (amount * WAD) % f <= WAD
  {
    var scaled, rest := amount * WAD / f, (amount * WAD) % f;
    assert amount * WAD == f * scaled + rest;
    var loss := CeilDiv(rest, WAD);
    CeilBounds(rest, WAD);
    DivNonNegative(rest + WAD - 1, WAD);
    DivIs(scaled * f, WAD, amount - loss);
    DivMono(rest + WAD - 1, f + WAD - 1, WAD);
  }

  /** A deposit credits its lender with new shares that are worth the amount less a loss fixed
      by the remainder of the scaling; the loss never exceeds the factor rounded up, and is at
      most one unit just when the remainder is at most one WAD. */
  lemma DepositRoundTrip(m: MarketState, cfg: Config, now: int, l: Lender, amount: u64)
    requires Inv(m) && Deposit(m, cfg, now, l, amount).Success?
    ensures var m' := Deposit(m, cfg, now, l, amount).value;
            var f, shares := m'.scaleFactor, m'.scaledSupply - m.scaledSupply;
            var loss := amount - shares * f / WAD;
            && 0 < shares
            && PositionOf(m'.book, l).scaledBalance == PositionOf(m.book, l).scaledBalance + shares
            && m'.vault == m.vault + amount
            && 0 < f && loss == CeilDiv((amount * WAD) % f, WAD)
            && 0 <= loss <= CeilDiv(f, WAD)
            && (loss <= 1 <==> (amount * WAD) % f <= WAD)
  {
    AccrueFacts(m, cfg, now);
    var f := Accrue(m, cfg, now).value.scaleFactor;
    RoundTrip(amount, f);
    DivNonNegative(amount * WAD, f);
  }

  /** Two units can be lost at a factor just below two. */
  lemma DepositCanLoseTwo()
    ensures 3 - (3 * WAD / (2 * WAD - 1)) * (2 * WAD - 1) / WAD == 2
  {
    DivIs(3 * WAD, 2 * WAD - 1, 1);
    DivIs(2 * WAD - 1, WAD, 1);
  }
}
