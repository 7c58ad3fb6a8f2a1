/** What holds of a market in every reachable state. */
module Invariants {
  import opened Outcomes
  import opened FixedPoint
  import opened Interest
  import opened Haircuts
  import opened Sums
  import opened Positions
  import opened Markets

  /** Normalized claim of the lenders still in the market. */
  function RemainingClaims(m: MarketState): int {
    m.scaledSupply * m.scaleFactor / WAD
  }

  /** The O(1) aggregates are the per-lender sums they stand for. */
  ghost predicate Aggregates(m: MarketState) {
    && m.scaledSupply == SumOf(m.book, BalanceOf)
    && m.haircutAccumulator == SumOf(m.book, OwedOf)
    && m.weightSum == SumOf(m.book, WeightOf)
    && m.offsetSum == SumOf(m.book, OffsetOf)
  }

  /** A haircut is anchored at a factor that was below WAD and is not ahead of the market. */
  predicate PositionOk(p: Position, s: int) {
    && 0 <= p.scaledBalance <= U128_MAX
    && 0 <= p.haircutOwed <= U64_MAX
    && (0 < p.haircutOwed ==>
          && 1 <= p.withdrawalSf <= s
          && p.withdrawalSf < WAD
          && PositionContribution(p.haircutOwed, p.withdrawalSf).Success?)
  }

  predicate PositionsOk(m: MarketState) {
    forall l :: l in m.book ==> PositionOk(m.book[l], m.settlementFactor)
  }

  /** Interest has run to maturity before anything settles. */
  predicate ClockOk(m: MarketState) {
    && 0 <= m.maturity - m.lastAccrual <= MAX_TERM
    && m.maturity + SETTLEMENT_GRACE_PERIOD <= I64_MAX
    && (0 < m.settlementFactor ==> m.lastAccrual == m.maturity)
  }

  /** Seconds of the longest possible term that are already behind the market. */
  function TermUsed(m: MarketState): int {
    MAX_TERM - (m.maturity - m.lastAccrual)
  }

  ghost predicate FactorOk(m: MarketState) {
    && 0 <= m.annualBps <= MAX_ANNUAL_INTEREST_BPS
    && WAD <= m.scaleFactor
    && 0 <= TermUsed(m)
    && GrewAtMost(WAD, m.scaleFactor, SECONDS_PER_YEAR, TermUsed(m))
  }

  predicate MoneyOk(m: MarketState) {
    && 0 <= m.vault <= U64_MAX
    && 0 <= m.fees <= U64_MAX
    && 0 <= m.scaledSupply <= U128_MAX
    && 0 <= m.haircutAccumulator <= U64_MAX
    && 0 <= m.weightSum <= U128_MAX
    && 0 <= m.offsetSum <= U128_MAX
    && 0 <= m.totalDeposited <= U64_MAX
    && 0 <= m.settlementFactor <= WAD
  }

  predicate DebtOk(m: MarketState) {
    && 0 <= m.totalInterestRepaid <= m.totalRepaid <= U64_MAX
    && 0 <= Outstanding(m)
    && m.totalBorrowed <= U64_MAX
  }

  /** A fully recovered market holds enough for every lender, gone or not. */
  predicate FullyCovered(m: MarketState) {
    m.settlementFactor == WAD ==> RemainingClaims(m) + m.haircutAccumulator <= m.vault
  }

  /** The part of the invariant that moving money alone cannot disturb. */
  ghost predicate CoreOk(m: MarketState) {
    && Aggregates(m)
    && PositionsOk(m)
    && ClockOk(m)
    && FactorOk(m)
  }

  ghost predicate Inv(m: MarketState) {
    && CoreOk(m)
    && MoneyOk(m)
    && DebtOk(m)
    && FullyCovered(m)
  }

  // ------------------------------------------------------------------
  // Aggregates
  // ------------------------------------------------------------------

  lemma EmptyWeighsNothing()
    ensures WeightOf(EMPTY) == 0 && OffsetOf(EMPTY) == 0
  {
  }

  lemma WriteSums(book: Book, l: Lender, p: Position)
    ensures var q, book' := PositionOf(book, l), book[l := p];
            && SumOf(book', BalanceOf) == SumOf(book, BalanceOf) - BalanceOf(q) + BalanceOf(p)
            && SumOf(book', OwedOf) == SumOf(book, OwedOf) - OwedOf(q) + OwedOf(p)
            && SumOf(book', WeightOf) == SumOf(book, WeightOf) - WeightOf(q) + WeightOf(p)
            && SumOf(book', OffsetOf) == SumOf(book, OffsetOf) - OffsetOf(q) + OffsetOf(p)
  {
    EmptyWeighsNothing();
    SumWrite(book, BalanceOf, l, p);
    SumWrite(book, OwedOf, l, p);
    SumWrite(book, WeightOf, l, p);
    SumWrite(book, OffsetOf, l, p);
  }

  lemma LineNonNegative(p: Position, s: int)
    requires PositionOk(p, s)
    ensures p.haircutOwed <= WeightOf(p) && 0 <= OffsetOf(p)
  {
    if 0 < p.haircutOwed {
      WeightBounds(p.haircutOwed, p.withdrawalSf);
      OffsetForm(p.haircutOwed, p.withdrawalSf);
    } else {
      assert 0 * p.withdrawalSf == 0;
    }
  }

  /** No aggregate is ever smaller than the part of it that one position contributes. */
  lemma ShareOfAggregates(m: MarketState, l: Lender)
    requires Aggregates(m) && PositionsOk(m)
    ensures var p := PositionOf(m.book, l);
            && 0 <= p.scaledBalance <= m.scaledSupply
            && 0 <= p.haircutOwed <= m.haircutAccumulator
            && 0 <= WeightOf(p) <= m.weightSum
            && 0 <= OffsetOf(p) <= m.offsetSum
  {
    EmptyWeighsNothing();
    forall k | k in m.book
      ensures 0 <= WeightOf(m.book[k]) && 0 <= OffsetOf(m.book[k])
    {
      LineNonNegative(m.book[k], m.settlementFactor);
    }
    SumAtLeast(m.book, BalanceOf, l);
    SumAtLeast(m.book, OwedOf, l);
    SumAtLeast(m.book, WeightOf, l);
    SumAtLeast(m.book, OffsetOf, l);
  }

  /** Only the vault, the fees and the debt counters differ. */
  predicate OnlyMoneyMoved(m: MarketState, m': MarketState) {
    m' == m.(vault := m'.vault, fees := m'.fees, totalDeposited := m'.totalDeposited,
             totalBorrowed := m'.totalBorrowed, totalRepaid := m'.totalRepaid,
             totalInterestRepaid := m'.totalInterestRepaid)
  }

  lemma MovingMoneyKeepsCore(m: MarketState, m': MarketState)
    requires CoreOk(m) && OnlyMoneyMoved(m, m')
    ensures CoreOk(m')
  {
  }

  /** One position is rewritten and the aggregates follow it. */
  predicate PositionRewritten(m: MarketState, m': MarketState, l: Lender) {
    && l in m'.book
    && m'.book == m.book[l := m'.book[l]]
    && var p, q := PositionOf(m.book, l), m'.book[l];
       m' == m.(book := m'.book, vault := m'.vault, totalDeposited := m'.totalDeposited,
                scaledSupply := m.scaledSupply - p.scaledBalance + q.scaledBalance,
                haircutAccumulator := m.haircutAccumulator - p.haircutOwed + q.haircutOwed,
                weightSum := m.weightSum - WeightOf(p) + WeightOf(q),
                offsetSum := m.offsetSum - OffsetOf(p) + OffsetOf(q))
  }

  lemma RewritingKeepsCore(m: MarketState, m': MarketState, l: Lender)
    requires CoreOk(m) && PositionRewritten(m, m', l) && PositionOk(m'.book[l], m.settlementFactor)
    ensures CoreOk(m')
  {
    WriteSums(m.book, l, m'.book[l]);
  }

  /** The aggregates of `m` fit the fields that store them. */
  predicate AggregatesFit(m: MarketState) {
    && m.scaledSupply <= U128_MAX
    && m.haircutAccumulator <= U64_MAX
    && m.weightSum <= U128_MAX
    && m.offsetSum <= U128_MAX
  }

  /** Rewriting a position keeps the invariant if every field still fits and full recovery holds. */
  lemma RewritingKeepsInv(m: MarketState, m': MarketState, l: Lender)
    requires Inv(m) && PositionRewritten(m, m', l) && PositionOk(m'.book[l], m.settlementFactor)
    requires AggregatesFit(m') && FullyCovered(m')
    requires 0 <= m'.vault <= U64_MAX && 0 <= m'.totalDeposited <= U64_MAX
    ensures Inv(m')
  {
    RewritingKeepsCore(m, m', l);
    ShareOfAggregates(m, l);
    LineNonNegative(m'.book[l], m.settlementFactor);
  }

  // ------------------------------------------------------------------
  // Accrual
  // ------------------------------------------------------------------

  lemma FeeNonNegative(supply: int, factor: int, growth: int, rate: FeeRate)
    requires 0 <= supply && 0 <= factor && WAD <= growth
    requires FeeFor(supply, factor, growth, rate).Success?
    ensures 0 <= FeeFor(supply, factor, growth, rate).value
    ensures FeeFor(supply, factor, growth, rate).value
         == (supply * factor / WAD) * ((growth - WAD) * rate / BPS) / WAD
  {
    MulLe(0, growth - WAD, rate);
    DivNonNegative((growth - WAD) * rate, BPS);
    MulLe(0, supply, factor);
    DivNonNegative(supply * factor, WAD);
    MulLe(0, supply * factor / WAD, (growth - WAD) * rate / BPS);
    DivNonNegative((supply * factor / WAD) * ((growth - WAD) * rate / BPS), WAD);
  }

  /** Growth computed by a successful accrual, and the factor it leads to. */
  lemma AccrueGrowth(m: MarketState, cfg: Config, now: int)
    requires ClockOk(m) && FactorOk(m) && m.lastAccrual < Min(now, m.maturity)
    ensures var e := Min(now, m.maturity) - m.lastAccrual;
            && Growth(m.annualBps, e) == Success(GrowthFloor(m.annualBps, e))
            && WAD <= GrowthFloor(m.annualBps, e)
            && MulWad(m.scaleFactor, GrowthFloor(m.annualBps, e))
               == Success(FloorMul(m.scaleFactor, GrowthFloor(m.annualBps, e)))
            && m.scaleFactor <= FloorMul(m.scaleFactor, GrowthFloor(m.annualBps, e))
            && GrewAtMost(WAD, FloorMul(m.scaleFactor, GrowthFloor(m.annualBps, e)), SECONDS_PER_YEAR, TermUsed(m) + e)
  {
    var e := Min(now, m.maturity) - m.lastAccrual;
    var g := GrowthFloor(m.annualBps, e);
    GrowthNeverOverflows(m.annualBps, e);
    GrowthBounded(m.annualBps, e);
    GrewProductFits(m.scaleFactor, g, SECONDS_PER_YEAR, TermUsed(m), e);
    FloorMulBounds(m.scaleFactor, g);
    GrewCompose(WAD, m.scaleFactor, g, FloorMul(m.scaleFactor, g), SECONDS_PER_YEAR, TermUsed(m), e);
    FloorMulGrows(m.scaleFactor, g);
  }

  lemma AccrueFacts(m: MarketState, cfg: Config, now: int)
    requires Inv(m) && Accrue(m, cfg, now).Success?
    ensures var a := Accrue(m, cfg, now).value;
            && Inv(a)
            && a == m.(fees := a.fees, scaleFactor := a.scaleFactor, lastAccrual := Min(now, m.maturity))
            && (m.lastAccrual == m.maturity ==> a == m && m.maturity <= now)
            && m.scaleFactor <= a.scaleFactor
            && m.fees <= a.fees
  {
    var a := Accrue(m, cfg, now).value;
    if m.lastAccrual < Min(now, m.maturity) {
      AccrueGrowth(m, cfg, now);
      var g := Growth(m.annualBps, Min(now, m.maturity) - m.lastAccrual).value;
      if 0 < cfg.feeRateBps {
        FeeNonNegative(m.scaledSupply, m.scaleFactor, g, cfg.feeRateBps);
      }
      assert a.book == m.book;
    }
  }

  // ------------------------------------------------------------------
  // Instructions that leave positions and settlement alone
  // ------------------------------------------------------------------

  lemma CreateKeepsInv(cfg: Config, wl: Whitelist, annualBps: int, maturity: int, maxTotalSupply: u64, now: int)
    requires 0 <= annualBps
    requires CreateMarket(cfg, wl, annualBps, maturity, maxTotalSupply, now).Success?
    ensures Inv(CreateMarket(cfg, wl, annualBps, maturity, maxTotalSupply, now).value)
  {
    var m := CreateMarket(cfg, wl, annualBps, maturity, maxTotalSupply, now).value;
    FreshFactor(TermUsed(m));
  }

  lemma FreshFactor(t: nat)
    ensures GrewAtMost(WAD, WAD, SECONDS_PER_YEAR, t)
  {
    Powers.PowMonoBase(SECONDS_PER_YEAR, SECONDS_PER_YEAR + 1, t);
    MulLe(Powers.Pow(SECONDS_PER_YEAR, t), Powers.Pow(SECONDS_PER_YEAR + 1, t), WAD);
  }

  lemma DepositKeepsInv(m: MarketState, cfg: Config, now: int, l: Lender, amount: u64)
    requires Inv(m) && Deposit(m, cfg, now, l, amount).Success?
    ensures Inv(Deposit(m, cfg, now, l, amount).value)
    ensures m.settlementFactor == 0
  {
    AccrueFacts(m, cfg, now);
    var a, m' := Accrue(m, cfg, now).value, Deposit(m, cfg, now, l, amount).value;
    DivNonNegative(amount * WAD, a.scaleFactor);
    ShareOfAggregates(a, l);
    RewritingKeepsInv(a, m', l);
  }

  lemma BorrowKeepsInv(m: MarketState, wl: Whitelist, cfg: Config, now: int, amount: u64)
    requires Inv(m) && Borrow(m, wl, cfg, now, amount).Success?
    ensures Inv(Borrow(m, wl, cfg, now, amount).value.0)
    ensures m.settlementFactor == 0
  {
    AccrueFacts(m, cfg, now);
    MovingMoneyKeepsCore(Accrue(m, cfg, now).value, Borrow(m, wl, cfg, now, amount).value.0);
  }

  lemma RepayKeepsInv(m: MarketState, wl: Whitelist, cfg: Config, now: int, amount: u64)
    requires Inv(m) && Repay(m, wl, cfg, now, amount).Success?
    ensures Inv(Repay(m, wl, cfg, now, amount).value.0)
  {
    AccrueFacts(m, cfg, now);
    MovingMoneyKeepsCore(Accrue(m, cfg, now).value, Repay(m, wl, cfg, now, amount).value.0);
  }

  lemma RepayInterestKeepsInv(m: MarketState, cfg: Config, now: int, amount: u64)
    requires Inv(m) && RepayInterest(m, cfg, now, amount).Success?
    ensures Inv(RepayInterest(m, cfg, now, amount).value)
  {
    AccrueFacts(m, cfg, now);
    MovingMoneyKeepsCore(Accrue(m, cfg, now).value, RepayInterest(m, cfg, now, amount).value);
  }

  lemma DonateKeepsInv(m: MarketState, amount: u64)
    requires Inv(m) && Donate(m, amount).Success?
    ensures Inv(Donate(m, amount).value)
  {
  }

  lemma RemainingClaimsBounds(m: MarketState)
    requires MoneyOk(m) && WAD <= m.scaleFactor
    ensures 0 <= RemainingClaims(m)
    ensures m.scaledSupply == 0 ==> RemainingClaims(m) == 0
  {
  }

  /** A fee sweep takes no more than the vault holds above every lender's claim. */
  lemma CollectFeesTakes(m: MarketState, cfg: Config, now: int)
    requires Inv(m) && CollectFees(m, cfg, now).Success?
    ensures var a, m' := Accrue(m, cfg, now).value, CollectFees(m, cfg, now).value;
            && OnlyMoneyMoved(a, m')
            && m'.totalDeposited == a.totalDeposited
            && Outstanding(m') == Outstanding(a)
            && 0 < a.vault - m'.vault == a.fees - m'.fees
            && 0 <= m'.fees
            && RemainingClaims(a) + a.haircutAccumulator <= m'.vault
  {
    AccrueFacts(m, cfg, now);
    RemainingClaimsBounds(Accrue(m, cfg, now).value);
  }

  lemma CollectFeesKeepsInv(m: MarketState, cfg: Config, now: int)
    requires Inv(m) && CollectFees(m, cfg, now).Success?
    ensures Inv(CollectFees(m, cfg, now).value)
  {
    AccrueFacts(m, cfg, now);
    CollectFeesTakes(m, cfg, now);
    MovingMoneyKeepsCore(Accrue(m, cfg, now).value, CollectFees(m, cfg, now).value);
    RemainingClaimsBounds(Accrue(m, cfg, now).value);
  }

  lemma WithdrawExcessKeepsInv(m: MarketState, wl: Whitelist, cfg: Config, now: int)
    requires Inv(m) && WithdrawExcess(m, wl, cfg, now).Success?
    ensures Inv(WithdrawExcess(m, wl, cfg, now).value)
  {
    assert m.scaledSupply == 0;
    assert m.scaledSupply * m.scaleFactor == 0;
  }

  lemma ClosingKeepsAggregates(m: MarketState, l: Lender)
    requires Aggregates(m) && l in m.book
    requires m.book[l].scaledBalance == 0 && m.book[l].haircutOwed == 0
    ensures Aggregates(m.(book := m.book - {l}))
  {
    assert 0 * m.book[l].withdrawalSf == 0;
    SumRemove(m.book, BalanceOf, l);
    SumRemove(m.book, OwedOf, l);
    SumRemove(m.book, WeightOf, l);
    SumRemove(m.book, OffsetOf, l);
  }

  lemma ClosePositionKeepsInv(m: MarketState, cfg: Config, l: Lender)
    requires Inv(m) && ClosePosition(m, cfg, l).Success?
    ensures Inv(ClosePosition(m, cfg, l).value)
  {
    ClosingKeepsAggregates(m, l);
    var m' := ClosePosition(m, cfg, l).value;
    assert PositionsOk(m') && ClockOk(m') && FactorOk(m');
  }

  // ------------------------------------------------------------------
  // Settlement
  // ------------------------------------------------------------------

  /** `f` is the share of the claims `total` that `available` covers, rounded down and held
      within [1, WAD]. */
  predicate CoveredShare(f: int, available: int, total: int) {
    && 1 <= f <= WAD
    && (f == WAD ==> total <= available)
    && (1 < f ==> f * total <= WAD * available)
    && (f < WAD ==> WAD * available < (f + 1) * total)
  }

  lemma SettlementFactorBounds(available: int, total: int)
    requires 0 <= available && 0 <= total && SettlementFactor(available, total).Success?
    ensures CoveredShare(SettlementFactor(available, total).value, available, total)
  {
    if total == 0 {
    } else {
      var q := available * WAD / total;
      DivBounds(available * WAD, total);
      ClampedShare(q, Max(1, Min(WAD, q)), available, total);
    }
  }

  lemma ClampedShare(q: int, f: int, available: int, total: int)
    requires 0 < total && f == Max(1, Min(WAD, q))
    requires total * q <= available * WAD < total * q + total
    ensures CoveredShare(f, available, total)
  {
    assert total * q + total == (q + 1) * total;
    if 1 < f {
      MulLe(f, q, total);
    }
    if f == WAD {
      MulCancel(total, available, WAD);
    } else {
      MulLe(q + 1, f + 1, total);
    }
  }

  lemma NoHaircutsBeforeSettlement(m: MarketState)
    requires Inv(m) && m.settlementFactor == 0
    ensures forall l :: l in m.book ==> m.book[l].haircutOwed == 0
    ensures m.haircutAccumulator == 0
  {
    SumZero(m.book, OwedOf);
  }

  lemma SettleFacts(m: MarketState)
    requires Inv(m) && m.lastAccrual == m.maturity && Settle(m).Success?
    ensures var s := Settle(m).value;
            && Inv(s)
            && s == m.(settlementFactor := s.settlementFactor)
            && 1 <= s.settlementFactor
            && (0 < m.settlementFactor ==> s == m)
  {
    if m.settlementFactor == 0 {
      MulLe(0, m.scaledSupply, m.scaleFactor);
      DivNonNegative(m.scaledSupply * m.scaleFactor, WAD);
      SettlementFactorBounds(m.vault, RemainingClaims(m));
      NoHaircutsBeforeSettlement(m);
    }
  }

  // ------------------------------------------------------------------
  // Exit
  // ------------------------------------------------------------------

  /** What an exit is paid at the locked factor never exceeds what it gives up. */
  lemma PayoutBounds(normalized: int, s: int)
    requires 0 <= normalized && 0 <= s <= WAD
    ensures 0 <= normalized * s / WAD <= normalized
    ensures s < WAD && 0 < normalized ==> normalized * s / WAD < normalized
    ensures s == WAD ==> normalized * s / WAD == normalized
  {
    MulLe(s, WAD, normalized);
    MulLe(0, normalized, s);
    DivNonNegative(normalized * s, WAD);
    DivAtMost(normalized * s, WAD, normalized);
    if s == WAD {
      DivIs(normalized * s, WAD, normalized);
    } else {
      MulLe(s, WAD - 1, normalized);
      assert normalized * (WAD - 1) == normalized * WAD - normalized;
      if 0 < normalized {
        DivAtMost(normalized * s, WAD, normalized - 1);
      }
    }
  }

  /** An exit of `normalized` units, paid `payout` of them by the locked factor. */
  predicate ExitAmounts(m: MarketState, l: Lender, scaled: int, normalized: int, payout: int) {
    && l in m.book
    && 0 <= scaled <= m.book[l].scaledBalance
    && 1 <= m.settlementFactor
    && normalized == scaled * m.scaleFactor / WAD
    && payout == normalized * m.settlementFactor / WAD
  }

  lemma ExitSplits(m: MarketState, l: Lender, scaled: int, normalized: int, payout: int)
    requires Inv(m) && ExitAmounts(m, l, scaled, normalized, payout)
    ensures 0 <= payout <= normalized
    ensures 0 <= (m.scaledSupply - scaled) * m.scaleFactor / WAD
    ensures (m.scaledSupply - scaled) * m.scaleFactor / WAD + normalized <= RemainingClaims(m)
    ensures m.settlementFactor == WAD ==> payout == normalized
    ensures m.settlementFactor < WAD && 0 < normalized ==> payout < normalized
  {
    ShareOfAggregates(m, l);
    MulLe(0, scaled, m.scaleFactor);
    MulLe(0, m.scaledSupply - scaled, m.scaleFactor);
    DivNonNegative(scaled * m.scaleFactor, WAD);
    DivNonNegative((m.scaledSupply - scaled) * m.scaleFactor, WAD);
    PayoutBounds(normalized, m.settlementFactor);
    assert (m.scaledSupply - scaled) * m.scaleFactor + scaled * m.scaleFactor == m.scaledSupply * m.scaleFactor;
    DivSuperadditive((m.scaledSupply - scaled) * m.scaleFactor, scaled * m.scaleFactor, WAD);
  }

  /** What recording the gap changes, when there is one. */
  lemma RecordedPosition(m: MarketState, l: Lender, normalized: int, payout: int)
    requires PositionsOk(m) && l in m.book && 1 <= m.settlementFactor < WAD
    requires m.scaledSupply <= U128_MAX && 0 <= payout < normalized
    requires RecordGap(m, l, normalized, payout).Success?
    ensures var (r, total) := RecordGap(m, l, normalized, payout).value;
            var p, s := m.book[l], m.settlementFactor;
            var remaining := Remaining(p.haircutOwed, p.withdrawalSf, s);
            && 0 <= remaining <= p.haircutOwed
            && r.book == m.book[l := p.(haircutOwed := remaining + (normalized - payout), withdrawalSf := s)]
            && total == payout + (p.haircutOwed - remaining)
            && PositionOk(r.book[l], s)
            && PositionRewritten(m, r, l)
            && r.vault == m.vault && r.totalDeposited == m.totalDeposited
            && AggregatesFit(r)
  {
    var p := m.book[l];
    if 0 < p.haircutOwed {
      ClaimsDoNotOverflow(p.haircutOwed, p.withdrawalSf, m.settlementFactor);
    }
    ContributionIs(p.haircutOwed, p.withdrawalSf);
    var (r, _) := RecordGap(m, l, normalized, payout).value;
    ContributionIs(r.book[l].haircutOwed, m.settlementFactor);
  }

  lemma NoGapNoChange(m: MarketState, l: Lender, normalized: int, payout: int)
    requires m.settlementFactor == WAD || normalized == 0
    requires 0 <= payout <= normalized
    requires RecordGap(m, l, normalized, payout).Success?
    ensures RecordGap(m, l, normalized, payout).value == (m, payout)
  {
  }

  /** The haircut that an exit re-anchors: what is left of it at the current factor. */
  function Carried(m: MarketState, l: Lender, normalized: int): int {
    var p := PositionOf(m.book, l);
    if m.settlementFactor < WAD && 0 < normalized
    then Remaining(p.haircutOwed, p.withdrawalSf, m.settlementFactor)
    else p.haircutOwed
  }

  /** What a successful exit pays, and the position and totals it leaves. */
  predicate Departs(m: MarketState, m': MarketState, l: Lender, scaled: int, normalized: int, payout: int) {
    var p, carried, gap := PositionOf(m.book, l), Carried(m, l, normalized), normalized - payout;
    && 0 <= carried <= p.haircutOwed && 0 <= payout && 0 <= gap
    && m.vault - m'.vault == payout + (p.haircutOwed - carried)
    && PositionRewritten(m, m', l)
    && m'.book[l] == Position(p.scaledBalance - scaled, carried + gap,
                              if 0 < gap then m.settlementFactor else p.withdrawalSf)
  }

  lemma LeavePays(m: MarketState, l: Lender, scaled: int, normalized: int, payout: int)
    requires Inv(m) && ExitAmounts(m, l, scaled, normalized, payout)
    requires Leave(m, l, scaled, normalized, payout).Success?
    ensures var m' := Leave(m, l, scaled, normalized, payout).value;
            && Departs(m, m', l, scaled, normalized, payout) && m'.totalDeposited == m.totalDeposited
            && PositionOk(m'.book[l], m.settlementFactor)
            && AggregatesFit(m') && 0 <= m'.vault
  {
    ExitSplits(m, l, scaled, normalized, payout);
    ShareOfAggregates(m, l);
    if m.settlementFactor == WAD || normalized == 0 {
      NoGapNoChange(m, l, normalized, payout);
    } else {
      RecordedPosition(m, l, normalized, payout);
    }
  }

  lemma LeaveKeepsInv(m: MarketState, l: Lender, scaled: int, normalized: int, payout: int)
    requires Inv(m) && ExitAmounts(m, l, scaled, normalized, payout)
    requires Leave(m, l, scaled, normalized, payout).Success?
    ensures Inv(Leave(m, l, scaled, normalized, payout).value)
  {
    var m' := Leave(m, l, scaled, normalized, payout).value;
    LeavePays(m, l, scaled, normalized, payout);
    ExitSplits(m, l, scaled, normalized, payout);
    RewritingKeepsInv(m, m', l);
  }

  /** The accrued and settled state an exit starts from, and its amounts. */
  datatype Exit = Exit(start: MarketState, scaled: int, normalized: int, payout: int)

  function ExitFrom(s: MarketState, l: Lender, scaled: int): Exit {
    var normalized := scaled * s.scaleFactor / WAD;
    Exit(s, scaled, normalized, normalized * s.settlementFactor / WAD)
  }

  /** An exit from `m` leaves from a valid settled state. */
  ghost predicate ExitOk(m: MarketState, e: Exit, l: Lender) {
    && Inv(e.start)
    && ExitAmounts(e.start, l, e.scaled, e.normalized, e.payout)
    && e.start.book == m.book && e.start.vault == m.vault
    && e.start.scaledSupply == m.scaledSupply && e.start.haircutAccumulator == m.haircutAccumulator
    && (0 < m.settlementFactor ==> e.start == m)
    && (m.lastAccrual == m.maturity ==> e.start.scaleFactor == m.scaleFactor)
    && e.start.lastAccrual == e.start.maturity == m.maturity
    && (m.settlementFactor == 0 ==>
          && m.haircutAccumulator == 0
          && SettlementFactor(m.vault, RemainingClaims(e.start)) == Success(e.start.settlementFactor))
  }

  lemma SettledStart(m: MarketState, cfg: Config, now: int)
    requires Inv(m) && m.maturity <= now
    requires Accrue(m, cfg, now).Success? && Settle(Accrue(m, cfg, now).value).Success?
    ensures var s := Settle(Accrue(m, cfg, now).value).value;
            && Inv(s) && 1 <= s.settlementFactor
            && s.book == m.book && s.vault == m.vault
            && s.scaledSupply == m.scaledSupply && s.haircutAccumulator == m.haircutAccumulator
            && s.totalDeposited == m.totalDeposited
            && (0 < m.settlementFactor ==> s == m)
            && (m.lastAccrual == m.maturity ==> s.scaleFactor == m.scaleFactor)
            && s.lastAccrual == s.maturity == m.maturity
            && (m.settlementFactor == 0 ==>
                  && m.haircutAccumulator == 0
                  && SettlementFactor(m.vault, RemainingClaims(s)) == Success(s.settlementFactor))
  {
    AccrueFacts(m, cfg, now);
    SettleFacts(Accrue(m, cfg, now).value);
    if m.settlementFactor == 0 {
      NoHaircutsBeforeSettlement(m);
    }
  }

  lemma WithdrawUnfolds(m: MarketState, cfg: Config, now: int, l: Lender, scaledAmount: u128, minPayout: u64)
    requires Withdraw(m, cfg, now, l, scaledAmount, minPayout).Success?
    ensures m.maturity <= now && l in m.book
    ensures Accrue(m, cfg, now).Success? && Settle(Accrue(m, cfg, now).value).Success?
    ensures Settle(Accrue(m, cfg, now).value).value.book == m.book
    ensures Withdraw(m, cfg, now, l, scaledAmount, minPayout)
         == WithdrawShare(Settle(Accrue(m, cfg, now).value).value, l, scaledAmount, minPayout)
  {
    assert Accrue(m, cfg, now).value.book == m.book;
  }

  lemma WithdrawShareUnfolds(s: MarketState, l: Lender, scaledAmount: u128, minPayout: u64)
    requires l in s.book && WithdrawShare(s, l, scaledAmount, minPayout).Success?
    ensures var e := ExitFrom(s, l, if scaledAmount == 0 then s.book[l].scaledBalance else scaledAmount);
            var left := Leave(s, l, e.scaled, e.normalized, e.payout);
            && e.scaled <= s.book[l].scaledBalance
            && (0 <= e.scaled || e.scaled == s.book[l].scaledBalance)
            && e.payout != 0 && (minPayout == 0 || minPayout <= e.payout)
            && left.Success?
            && WithdrawShare(s, l, scaledAmount, minPayout)
               == Success(left.value.(totalDeposited := SatSub(s.totalDeposited, s.vault - left.value.vault)))
  {
  }

  /** A successful withdrawal is an exit from the accrued and settled market. */
  lemma WithdrawIsExit(m: MarketState, cfg: Config, now: int, l: Lender, scaledAmount: u128, minPayout: u64)
    returns (e: Exit)
    requires Inv(m) && Withdraw(m, cfg, now, l, scaledAmount, minPayout).Success?
    ensures ExitOk(m, e, l)
    ensures e.scaled == if scaledAmount == 0 then m.book[l].scaledBalance else scaledAmount
    ensures 0 < e.payout && minPayout <= e.payout
    ensures var m', left := Withdraw(m, cfg, now, l, scaledAmount, minPayout).value,
                            Leave(e.start, l, e.scaled, e.normalized, e.payout);
            && Departs(e.start, m', l, e.scaled, e.normalized, e.payout)
            && left.Success?
            && m' == left.value.(totalDeposited := m'.totalDeposited)
            && 0 <= m'.totalDeposited <= U64_MAX
  {
    WithdrawUnfolds(m, cfg, now, l, scaledAmount, minPayout);
    SettledStart(m, cfg, now);
    var s := Settle(Accrue(m, cfg, now).value).value;
    e := ShareIsExit(s, l, scaledAmount, minPayout);
  }

  lemma ShareIsExit(s: MarketState, l: Lender, scaledAmount: u128, minPayout: u64) returns (e: Exit)
    requires Inv(s) && 1 <= s.settlementFactor && l in s.book
    requires WithdrawShare(s, l, scaledAmount, minPayout).Success?
    ensures e == ExitFrom(s, l, if scaledAmount == 0 then s.book[l].scaledBalance else scaledAmount)
    ensures ExitAmounts(s, l, e.scaled, e.normalized, e.payout)
    ensures 0 < e.payout && minPayout <= e.payout
    ensures var m', left := WithdrawShare(s, l, scaledAmount, minPayout).value,
                            Leave(s, l, e.scaled, e.normalized, e.payout);
            && Departs(s, m', l, e.scaled, e.normalized, e.payout)
            && left.Success?
            && m' == left.value.(totalDeposited := m'.totalDeposited)
            && 0 <= m'.totalDeposited <= U64_MAX
  {
    e := ExitFrom(s, l, if scaledAmount == 0 then s.book[l].scaledBalance else scaledAmount);
    WithdrawShareUnfolds(s, l, scaledAmount, minPayout);
    LeavePays(s, l, e.scaled, e.normalized, e.payout);
  }

  lemma ForceCloseUnfolds(m: MarketState, cfg: Config, now: int, l: Lender)
    requires ForceClose(m, cfg, now, l).Success?
    ensures m.maturity <= now && l in m.book
    ensures Accrue(m, cfg, now).Success? && Settle(Accrue(m, cfg, now).value).Success?
    ensures Settle(Accrue(m, cfg, now).value).value.book == m.book
    ensures ForceClose(m, cfg, now, l) == CloseOut(Settle(Accrue(m, cfg, now).value).value, l)
  {
    assert Accrue(m, cfg, now).value.book == m.book;
  }

  /** A successful force-close is an exit with the whole balance. */
  lemma ForceCloseIsExit(m: MarketState, cfg: Config, now: int, l: Lender)
    returns (e: Exit)
    requires Inv(m) && ForceClose(m, cfg, now, l).Success?
    ensures ExitOk(m, e, l)
    ensures e.scaled == m.book[l].scaledBalance
    ensures Departs(e.start, ForceClose(m, cfg, now, l).value, l, e.scaled, e.normalized, e.payout)
    ensures ForceClose(m, cfg, now, l) == Leave(e.start, l, e.scaled, e.normalized, e.payout)
  {
    ForceCloseUnfolds(m, cfg, now, l);
    var s := Settle(Accrue(m, cfg, now).value).value;
    e := ExitFrom(s, l, s.book[l].scaledBalance);
    SettledStart(m, cfg, now);
    LeavePays(s, l, e.scaled, e.normalized, e.payout);
  }

  lemma WithdrawKeepsInv(m: MarketState, cfg: Config, now: int, l: Lender, scaledAmount: u128, minPayout: u64)
    requires Inv(m) && Withdraw(m, cfg, now, l, scaledAmount, minPayout).Success?
    ensures Inv(Withdraw(m, cfg, now, l, scaledAmount, minPayout).value)
  {
    var e := WithdrawIsExit(m, cfg, now, l, scaledAmount, minPayout);
    LeaveKeepsInv(e.start, l, e.scaled, e.normalized, e.payout);
    MovingMoneyKeepsCore(Leave(e.start, l, e.scaled, e.normalized, e.payout).value,
                         Withdraw(m, cfg, now, l, scaledAmount, minPayout).value);
  }

  lemma ForceCloseKeepsInv(m: MarketState, cfg: Config, now: int, l: Lender)
    requires Inv(m) && ForceClose(m, cfg, now, l).Success?
    ensures Inv(ForceClose(m, cfg, now, l).value)
  {
    var e := ForceCloseIsExit(m, cfg, now, l);
    LeaveKeepsInv(e.start, l, e.scaled, e.normalized, e.payout);
  }

  // ------------------------------------------------------------------
  // Claims
  // ------------------------------------------------------------------

  lemma ObligationsAre(m: MarketState)
    requires Inv(m) && RemainingObligations(m).Success?
    ensures RemainingObligations(m).value == RemainingClaims(m) * m.settlementFactor / WAD
  {
    RemainingClaimsBounds(m);
    if m.scaledSupply == 0 {
      assert 0 * m.settlementFactor == 0;
    }
  }

  /** What a successful claim pays and leaves. */
  predicate Claimed(m: MarketState, m': MarketState, l: Lender) {
    && l in m.book
    && var p, paid, s := m.book[l], m.vault - m'.vault, m.settlementFactor;
       && 0 < p.haircutOwed && p.withdrawalSf < s
       && paid == Min(ClaimOf(p, s), m.vault - RemainingClaims(m) * s / WAD)
       && 0 < paid <= p.haircutOwed
       && 0 <= RemainingClaims(m) * s / WAD
       && PositionRewritten(m, m', l) && m'.totalDeposited == m.totalDeposited
       && m'.book[l] == p.(haircutOwed := p.haircutOwed - paid,
                           withdrawalSf := if paid < p.haircutOwed then s else 0)
       && (paid < p.haircutOwed ==> PositionContribution(p.haircutOwed - paid, s).Success?)
       && m'.weightSum <= U128_MAX && m'.offsetSum <= U128_MAX
  }

  /** A successful claim spends the exact amount or the vault's surplus, whichever is less. */
  lemma PayClaimSpends(m: MarketState, l: Lender)
    requires Inv(m) && 1 <= m.settlementFactor && PayClaim(m, l).Success?
    ensures l in m.book
    ensures var p, s := m.book[l], m.settlementFactor;
            var claim := Min(ClaimOf(p, s), m.vault - RemainingClaims(m) * s / WAD);
            && 0 < p.haircutOwed && p.withdrawalSf < s
            && 0 < claim <= p.haircutOwed
            && 0 <= RemainingClaims(m) * s / WAD
            && SpendClaim(m, l, claim) == PayClaim(m, l)
  {
    var p, s := m.book[l], m.settlementFactor;
    ObligationsAre(m);
    RemainingClaimsBounds(m);
    MulLe(0, RemainingClaims(m), s);
    DivNonNegative(RemainingClaims(m) * s, WAD);
    ClaimsDoNotOverflow(p.haircutOwed, p.withdrawalSf, s);
  }

  lemma SpendClaimFacts(m: MarketState, l: Lender, claim: int)
    requires l in m.book && SpendClaim(m, l, claim).Success? && claim <= m.book[l].haircutOwed
    ensures var p, m', s := m.book[l], SpendClaim(m, l, claim).value, m.settlementFactor;
            && m.vault - m'.vault == claim
            && PositionRewritten(m, m', l) && m'.totalDeposited == m.totalDeposited
            && m'.book[l] == p.(haircutOwed := p.haircutOwed - claim,
                                withdrawalSf := if claim < p.haircutOwed then s else 0)
            && (claim < p.haircutOwed ==> PositionContribution(p.haircutOwed - claim, s).Success?)
            && m'.weightSum <= U128_MAX && m'.offsetSum <= U128_MAX
  {
    var p, q := m.book[l], SpendClaim(m, l, claim).value.book[l];
    ContributionIs(p.haircutOwed, p.withdrawalSf);
    if 0 < q.haircutOwed {
      ContributionIs(q.haircutOwed, m.settlementFactor);
    } else {
      assert 0 * q.withdrawalSf == 0;
    }
  }

  lemma PayClaimFacts(m: MarketState, l: Lender)
    requires Inv(m) && 1 <= m.settlementFactor && PayClaim(m, l).Success?
    ensures Claimed(m, PayClaim(m, l).value, l)
  {
    PayClaimSpends(m, l);
    SpendClaimFacts(m, l, Min(ClaimOf(m.book[l], m.settlementFactor),
                              m.vault - RemainingClaims(m) * m.settlementFactor / WAD));
  }

  /** At WAD the surplus cap never binds: a claim pays all that is owed. */
  lemma ClaimAtWadPaysAll(m: MarketState, m': MarketState, l: Lender)
    requires Inv(m) && m.settlementFactor == WAD && Claimed(m, m', l)
    ensures m.vault - m'.vault == m.book[l].haircutOwed
  {
    var p := m.book[l];
    ClaimEndpoints(p.haircutOwed, p.withdrawalSf);
    DivIs(RemainingClaims(m) * WAD, WAD, RemainingClaims(m));
    ShareOfAggregates(m, l);
  }

  lemma ClaimKeepsInv(m: MarketState, m': MarketState, l: Lender)
    requires Inv(m) && Claimed(m, m', l)
    requires m.settlementFactor == WAD ==> m.vault - m'.vault == m.book[l].haircutOwed
    ensures Inv(m')
  {
    ShareOfAggregates(m, l);
    RewritingKeepsInv(m, m', l);
  }

  lemma PayClaimKeepsInv(m: MarketState, l: Lender)
    requires Inv(m) && 1 <= m.settlementFactor && PayClaim(m, l).Success?
    ensures Inv(PayClaim(m, l).value)
  {
    PayClaimFacts(m, l);
    if m.settlementFactor == WAD {
      ClaimAtWadPaysAll(m, PayClaim(m, l).value, l);
    }
    ClaimKeepsInv(m, PayClaim(m, l).value, l);
  }

  // ------------------------------------------------------------------
  // Re-settlement
  // ------------------------------------------------------------------

  /** 1 for a position that still carries a haircut. */
  function HaircutCount(p: Position): int {
    if 0 < p.haircutOwed then 1 else 0
  }

  lemma LineOfPosition(p: Position, s: int, t: int)
    requires PositionOk(p, s) && 1 <= s <= t <= WAD
    ensures LineCovers(t, ClaimOf(p, t), WeightOf(p), OffsetOf(p), HaircutCount(p))
  {
    if 0 < p.haircutOwed {
      LineAboveClaim(p.haircutOwed, p.withdrawalSf, t);
    } else {
      assert t * 0 == 0 && 0 * p.withdrawalSf == 0;
    }
  }

  /** A line with weight `w` and offset `o` covers claims `c` at factor `t`, with at most two units for each of `n`. */
  predicate LineCovers(t: int, c: int, w: int, o: int, n: int) {
    WAD * c <= t * w - WAD * o <= WAD * (c + 2 * n)
  }

  lemma AddLines(t: int, c: int, w: int, o: int, n: int, c': int, w': int, o': int, n': int)
    requires LineCovers(t, c, w, o, n) && LineCovers(t, c', w', o', n')
    ensures LineCovers(t, c + c', w + w', o + o', n + n')
  {
    assert t * (w + w') == t * w + t * w';
  }

  lemma NoLine(t: int)
    ensures LineCovers(t, 0, 0, 0, 0)
  {
  }

  lemma {:induction false} SumLines(book: Book, t: int, c: Position -> int, w: Position -> int, o: Position -> int,
                                    n: Position -> int)
    requires forall l :: l in book ==> LineCovers(t, c(book[l]), w(book[l]), o(book[l]), n(book[l]))
    ensures LineCovers(t, SumOf(book, c), SumOf(book, w), SumOf(book, o), SumOf(book, n))
    decreases |book|
  {
    if |book| == 0 {
      NoLine(t);
    } else {
      var p, rest := book[Pick(book)], book - {Pick(book)};
      SumLines(rest, t, c, w, o, n);
      AddLines(t, c(p), w(p), o(p), n(p), SumOf(rest, c), SumOf(rest, w), SumOf(rest, o), SumOf(rest, n));
    }
  }

  /** Summed over the book, the conservative lines cover the exact claims, and exceed them
      by at most two units for every position that carries a haircut. */
  lemma LinesCoverClaims(book: Book, s: int, t: int)
    requires forall l :: l in book ==> PositionOk(book[l], s)
    requires 1 <= s <= t <= WAD
    ensures LineCovers(t, SumOf(book, ClaimAt(t)), SumOf(book, WeightOf), SumOf(book, OffsetOf),
                       SumOf(book, HaircutCount))
  {
    forall l | l in book
      ensures LineCovers(t, ClaimAt(t)(book[l]), WeightOf(book[l]), OffsetOf(book[l]), HaircutCount(book[l]))
    {
      LineOfPosition(book[l], s, t);
    }
    SumLines(book, t, ClaimAt(t), WeightOf, OffsetOf, HaircutCount);
  }

  lemma ClaimsAtWadAreOwed(m: MarketState)
    requires PositionsOk(m)
    ensures SumOf(m.book, ClaimAt(WAD)) == SumOf(m.book, OwedOf)
  {
    forall l | l in m.book
      ensures ClaimAt(WAD)(m.book[l]) == OwedOf(m.book[l])
    {
      var p := m.book[l];
      if 0 < p.haircutOwed {
        ClaimEndpoints(p.haircutOwed, p.withdrawalSf);
      }
    }
    SumSame(m.book, ClaimAt(WAD), OwedOf);
  }

  lemma CarriedAlgebra(v: int, r: int, w: int, o: int, t: int, c: int)
    requires t * (r + w) <= WAD * (v + o)
    requires WAD * c <= t * w - WAD * o
    ensures r * t / WAD + c <= v
  {
    assert t * (r + w) == r * t + t * w;
    DivAtMost(r * t, WAD, v - c);
  }

  /** A factor the aggregates carry is one the vault can honour exactly. */
  lemma CarriedFactorIsCovered(m: MarketState, t: int)
    requires Inv(m) && 1 <= m.settlementFactor <= t <= WAD
    requires Carries(m.vault, RemainingClaims(m), m.weightSum, m.offsetSum, t)
    ensures RemainingClaims(m) * t / WAD + SumOf(m.book, ClaimAt(t)) <= m.vault
  {
    LinesCoverClaims(m.book, m.settlementFactor, t);
    CarriedAlgebra(m.vault, RemainingClaims(m), m.weightSum, m.offsetSum, t, SumOf(m.book, ClaimAt(t)));
  }

  lemma ReSettleFacts(m: MarketState, cfg: Config, now: int)
    requires Inv(m) && ReSettle(m, cfg, now).Success?
    ensures var m' := ReSettle(m, cfg, now).value;
            && m' == m.(settlementFactor := m'.settlementFactor)
            && 1 <= m.settlementFactor < m'.settlementFactor <= WAD
            && Success(m'.settlementFactor)
               == ComputeResettleFactor(m.vault, RemainingClaims(m), m.weightSum, m.offsetSum)
            && Carries(m.vault, RemainingClaims(m), m.weightSum, m.offsetSum, m'.settlementFactor)
  {
    AccrueFacts(m, cfg, now);
    RemainingClaimsBounds(m);
    ResettleFactorIsGreatest(m.vault, RemainingClaims(m), m.weightSum, m.offsetSum, 1);
  }

  lemma ReSettleKeepsInv(m: MarketState, cfg: Config, now: int)
    requires Inv(m) && ReSettle(m, cfg, now).Success?
    ensures Inv(ReSettle(m, cfg, now).value)
  {
    ReSettleFacts(m, cfg, now);
    var m' := ReSettle(m, cfg, now).value;
    CarriedFactorIsCovered(m, m'.settlementFactor);
    if m'.settlementFactor == WAD {
      ClaimsAtWadAreOwed(m);
      DivIs(RemainingClaims(m) * WAD, WAD, RemainingClaims(m));
    }
  }

  // ------------------------------------------------------------------
  // Every step
  // ------------------------------------------------------------------

  lemma ProcessKeepsInv(m: MarketState, c: Call)
    requires Inv(m) && Process(m, c).Success?
    ensures Inv(Process(m, c).value.0)
  {
    match c.ix
    case IxDeposit(l, amount) => DepositKeepsInv(m, c.cfg, c.now, l, amount);
    case IxBorrow(amount) => BorrowKeepsInv(m, c.wl, c.cfg, c.now, amount);
    case IxRepay(amount) => RepayKeepsInv(m, c.wl, c.cfg, c.now, amount);
    case IxRepayInterest(amount) => RepayInterestKeepsInv(m, c.cfg, c.now, amount);
    case IxDonate(amount) => DonateKeepsInv(m, amount);
    case IxWithdraw(l, x, minPayout) => WithdrawKeepsInv(m, c.cfg, c.now, l, x, minPayout);
    case IxForceClose(l) => ForceCloseKeepsInv(m, c.cfg, c.now, l);
    case IxClaimHaircut(l) => PayClaimKeepsInv(m, l);
    case IxForceClaimHaircut(l) => PayClaimKeepsInv(m, l);
    case IxReSettle => ReSettleKeepsInv(m, c.cfg, c.now);
    case IxCollectFees => CollectFeesKeepsInv(m, c.cfg, c.now);
    case IxWithdrawExcess => WithdrawExcessKeepsInv(m, c.wl, c.cfg, c.now);
    case IxClosePosition(l) => ClosePositionKeepsInv(m, c.cfg, l);
  }

  /** Every state of every run satisfies the invariant. */
  lemma {:induction false} RunKeepsInv(m: MarketState, calls: seq<Call>)
    requires Inv(m)
    ensures Inv(Run(m, calls))
    decreases |calls|
  {
    if |calls| == 0 {
    } else {
      if Process(m, calls[0]).Success? {
        ProcessKeepsInv(m, calls[0]);
      }
      RunKeepsInv(Step(m, calls[0]), calls[1..]);
    }
  }
}
