/** When each instruction is accepted, in terms a caller can check before the call. */
module Decisions {
  import opened Outcomes
  import opened FixedPoint
  import opened Haircuts
  import opened Positions
  import opened Markets
  import opened Invariants
  import opened Solvency

  // ------------------------------------------------------------------
  // Claims
  // ------------------------------------------------------------------

  /** What a lender who left is due: the exact claim, or what the vault holds above the lenders
      still in the market. */
  function ClaimDue(m: MarketState, l: Lender): int {
    Min(ClaimOf(PositionOf(m.book, l), m.settlementFactor),
        m.vault - RemainingClaims(m) * m.settlementFactor / WAD)
  }

  /** The lenders' obligations fit their fields. */
  predicate ObligationsFit(m: MarketState) {
    && m.scaledSupply * m.scaleFactor <= U128_MAX
    && RemainingClaims(m) * m.settlementFactor <= U128_MAX
    && RemainingClaims(m) * m.settlementFactor / WAD <= U64_MAX
  }

  /** What is left of a haircut after a payment fits the aggregates at its new anchor. */
  predicate RestFits(m: MarketState, p: Position, claim: int) {
    var left, s := p.haircutOwed - claim, m.settlementFactor;
    0 < left ==>
      && PositionContribution(left, s).Success?
      && m.weightSum - WeightOf(p) + Weight(left, s) <= U128_MAX
      && m.offsetSum - OffsetOf(p) + Offset(left, s) <= U128_MAX
  }

  lemma ObligationsFitIff(m: MarketState)
    requires MoneyOk(m) && WAD <= m.scaleFactor && 1 <= m.settlementFactor
    ensures RemainingObligations(m).Success? <==> ObligationsFit(m)
    ensures ObligationsFit(m) ==>
              RemainingObligations(m) == Success(RemainingClaims(m) * m.settlementFactor / WAD)
  {
    RemainingClaimsBounds(m);
    if m.scaledSupply == 0 {
      assert 0 * m.settlementFactor == 0;
    }
  }

  lemma SpendSucceedsIff(m: MarketState, l: Lender, claim: int)
    requires Aggregates(m) && PositionsOk(m) && MoneyOk(m) && l in m.book
    requires 0 < claim <= m.book[l].haircutOwed && claim <= m.vault && 1 <= m.settlementFactor
    ensures SpendClaim(m, l, claim).Success? <==> RestFits(m, m.book[l], claim)
  {
    var p := m.book[l];
    ShareOfAggregates(m, l);
    ContributionIs(p.haircutOwed, p.withdrawalSf);
    if claim < p.haircutOwed && PositionContribution(p.haircutOwed - claim, m.settlementFactor).Success? {
      ContributionIs(p.haircutOwed - claim, m.settlementFactor);
    }
  }

  /** A claim is paid if and only if the lender has a haircut anchored below the market's factor,
      something is due on it, and the sums fit. */
  predicate ClaimAccepted(m: MarketState, l: Lender) {
    && l in m.book
    && 0 < m.book[l].haircutOwed && m.book[l].withdrawalSf < m.settlementFactor
    && 0 < ClaimDue(m, l)
    && ObligationsFit(m) && RestFits(m, m.book[l], ClaimDue(m, l))
  }

  lemma PayClaimSucceedsIff(m: MarketState, l: Lender)
    requires Inv(m) && 1 <= m.settlementFactor
    ensures PayClaim(m, l).Success? <==> ClaimAccepted(m, l)
    ensures ClaimAccepted(m, l) ==> m.vault - PayClaim(m, l).value.vault == ClaimDue(m, l)
  {
    if l in m.book && 0 < m.book[l].haircutOwed && m.book[l].withdrawalSf < m.settlementFactor {
      var p, s := m.book[l], m.settlementFactor;
      ClaimsDoNotOverflow(p.haircutOwed, p.withdrawalSf, s);
      ObligationsFitIff(m);
      RemainingClaimsBounds(m);
      MulLe(0, RemainingClaims(m), s);
      DivNonNegative(RemainingClaims(m) * s, WAD);
      if 0 < ClaimDue(m, l) {
        SpendSucceedsIff(m, l, ClaimDue(m, l));
        if ClaimAccepted(m, l) {
          SpendClaimFacts(m, l, ClaimDue(m, l));
        }
      }
    }
  }

  /** A claim on a settled market succeeds if and only if the program is not paused and the claim is
      acceptable; a borrower can force it from the end of the grace period on. */
  lemma ClaimSucceedsIff(m: MarketState, cfg: Config, now: int, l: Lender)
    requires Inv(m)
    ensures ClaimHaircut(m, cfg, l).Success?
        <==> !cfg.paused && 1 <= m.settlementFactor && ClaimAccepted(m, l)
    ensures ForceClaimHaircut(m, cfg, now, l).Success?
        <==> ClaimHaircut(m, cfg, l).Success? && m.maturity + SETTLEMENT_GRACE_PERIOD <= now
    ensures ForceClaimHaircut(m, cfg, now, l).Success? ==> ForceClaimHaircut(m, cfg, now, l) == ClaimHaircut(m, cfg, l)
  {
    if 1 <= m.settlementFactor {
      PayClaimSucceedsIff(m, l);
    }
  }

  /** Where everyone is covered the vault never stands in the way: whatever is claimable is due. */
  lemma CoveredClaimIsDue(m: MarketState, l: Lender)
    requires Inv(m) && SolventUpTo(m, 0) && 1 <= m.settlementFactor
    ensures ClaimDue(m, l) == ClaimOf(PositionOf(m.book, l), m.settlementFactor)
  {
    ClaimsNonNegative(m, l);
  }

  // ------------------------------------------------------------------
  // Sweeps
  // ------------------------------------------------------------------

  lemma SweepAmount(a: MarketState)
    requires MoneyOk(a) && WAD <= a.scaleFactor
    requires 0 < a.scaledSupply ==> a.settlementFactor == WAD && FullyCovered(a)
    ensures TakeFees(a).Success? <==> 0 < a.fees && RemainingClaims(a) + a.haircutAccumulator < a.vault
    ensures TakeFees(a).Success? ==>
              var m' := TakeFees(a).value;
              var taken := Min(a.fees, a.vault - RemainingClaims(a) - a.haircutAccumulator);
              m' == a.(fees := a.fees - taken, vault := a.vault - taken)
  {
    RemainingClaimsBounds(a);
    DivBounds(a.scaledSupply * a.scaleFactor, WAD);
  }

  /** A fee sweep succeeds if and only if the market is not paused and not in distress, nobody waits
      to settle, and both fees and a surplus above claims and reserve are there; it then takes
      all of one of them. */
  lemma FeeSweepIsMaximal(m: MarketState, cfg: Config, now: int)
    requires Inv(m)
    ensures CollectFees(m, cfg, now).Success?
        <==> && !cfg.paused && !(0 < m.settlementFactor < WAD)
             && (m.scaledSupply == 0 || m.settlementFactor == WAD)
             && Accrue(m, cfg, now).Success?
             && var a := Accrue(m, cfg, now).value;
                0 < a.fees && RemainingClaims(a) + a.haircutAccumulator < a.vault
    ensures CollectFees(m, cfg, now).Success? ==>
              var m' := CollectFees(m, cfg, now).value;
              m'.fees == 0 || m'.vault == RemainingClaims(m') + m'.haircutAccumulator
  {
    if Accrue(m, cfg, now).Success? {
      AccrueFacts(m, cfg, now);
      var a := Accrue(m, cfg, now).value;
      if a.scaledSupply == 0 || a.settlementFactor == WAD {
        SweepAmount(a);
      }
    }
  }

  /** The borrower's sweep succeeds if and only if everyone is paid or reserved for and something is
      left over. */
  lemma ExcessSucceedsIff(m: MarketState, wl: Whitelist, cfg: Config, now: int)
    requires Inv(m)
    ensures WithdrawExcess(m, wl, cfg, now).Success?
        <==> && !cfg.paused && wl.whitelisted && m.maturity <= now
             && m.scaledSupply == 0 && m.settlementFactor == WAD && m.fees == 0
             && m.haircutAccumulator < m.vault
  {
  }

  // ------------------------------------------------------------------
  // Entry, loans and repayments
  // ------------------------------------------------------------------

  /** A market is created if and only if the program is not paused, the borrower is whitelisted, and
      rate, term and cap are within their bounds. */
  lemma CreateSucceedsIff(cfg: Config, wl: Whitelist, annualBps: nat, maturity: int, cap: u64, now: int)
    ensures CreateMarket(cfg, wl, annualBps, maturity, cap, now).Success?
        <==> && !cfg.paused && wl.whitelisted && annualBps <= 10_000 && 0 < cap
             && now + 60 < maturity <= now + 5 * 365 * 86_400 <= I64_MAX && maturity + 300 <= I64_MAX
  {
  }

  lemma AcceptSucceedsIff(a: MarketState, l: Lender, amount: u64)
    requires Aggregates(a) && PositionsOk(a) && WAD <= a.scaleFactor && 0 < amount
    ensures AcceptDeposit(a, l, amount).Success?
        <==> && a.scaleFactor <= amount * WAD
             && a.totalDeposited + amount <= Min(a.maxTotalSupply, U64_MAX)
             && a.scaledSupply + amount * WAD / a.scaleFactor <= U128_MAX && a.vault + amount <= U64_MAX
  {
    ShareOfAggregates(a, l);
    if a.scaleFactor <= amount * WAD {
      DivAtLeast(amount * WAD, a.scaleFactor, 1);
    } else {
      DivIs(amount * WAD, a.scaleFactor, 0);
    }
  }

  /** A deposit succeeds if and only if the market is open, the amount buys a share, the cap holds and
      the fields can take it. */
  lemma DepositSucceedsIff(m: MarketState, cfg: Config, now: int, l: Lender, amount: u64)
    requires Inv(m) && Accrue(m, cfg, now).Success?
    ensures var f := Accrue(m, cfg, now).value.scaleFactor;
            Deposit(m, cfg, now, l, amount).Success?
            <==> && !cfg.paused && now < m.maturity && f <= amount * WAD
                 && m.totalDeposited + amount <= Min(m.maxTotalSupply, U64_MAX)
                 && m.scaledSupply + amount * WAD / f <= U128_MAX && m.vault + amount <= U64_MAX
  {
    AccrueFacts(m, cfg, now);
    if 0 < amount {
      AcceptSucceedsIff(Accrue(m, cfg, now).value, l, amount);
    }
  }

  /** A loan succeeds if and only if the market is open, the vault holds it, and the borrower is
      whitelisted and stays within its global capacity. */
  lemma BorrowSucceedsIff(m: MarketState, wl: Whitelist, cfg: Config, now: int, amount: u64)
    requires Inv(m) && Accrue(m, cfg, now).Success? && wl.maxBorrowCapacity <= U64_MAX
    ensures Borrow(m, wl, cfg, now, amount).Success?
        <==> && 0 < amount && !cfg.paused && now < m.maturity && amount <= m.vault
             && wl.whitelisted && wl.currentBorrowed + amount <= wl.maxBorrowCapacity
             && m.totalBorrowed + amount <= U64_MAX
    ensures Borrow(m, wl, cfg, now, amount).Success? ==>
              var wl' := Borrow(m, wl, cfg, now, amount).value.1;
              wl' == wl.(currentBorrowed := wl.currentBorrowed + amount) && wl'.currentBorrowed <= wl'.maxBorrowCapacity
  {
    AccrueFacts(m, cfg, now);
  }

  /** A repayment succeeds if and only if it is positive and within the principal outstanding on the
      market and the borrower's recorded debt, and the counters and the vault can take it. */
  lemma RepaySucceedsIff(m: MarketState, wl: Whitelist, cfg: Config, now: int, amount: u64)
    requires Inv(m) && Accrue(m, cfg, now).Success?
    ensures Repay(m, wl, cfg, now, amount).Success?
        <==> && 0 < amount && !cfg.paused && amount <= Outstanding(m) && amount <= wl.currentBorrowed
             && m.totalRepaid + amount <= U64_MAX && m.vault + amount <= U64_MAX
  {
    AccrueFacts(m, cfg, now);
  }

  /** An interest payment succeeds whenever the counters and the vault can take it. */
  lemma RepayInterestSucceedsIff(m: MarketState, cfg: Config, now: int, amount: u64)
    requires Inv(m) && Accrue(m, cfg, now).Success?
    ensures RepayInterest(m, cfg, now, amount).Success?
        <==> && 0 < amount && !cfg.paused
             && m.totalRepaid + amount <= U64_MAX && m.vault + amount <= U64_MAX
  {
    AccrueFacts(m, cfg, now);
  }

  /** A position can be closed if and only if it holds neither shares nor a haircut; nothing else is
      touched. */
  lemma CloseSucceedsIff(m: MarketState, cfg: Config, l: Lender)
    requires Inv(m)
    ensures ClosePosition(m, cfg, l).Success?
        <==> !cfg.paused && l in m.book && m.book[l].scaledBalance == 0 && m.book[l].haircutOwed == 0
    ensures ClosePosition(m, cfg, l).Success? ==>
              ClosePosition(m, cfg, l).value == m.(book := map k | k in m.book && k != l :: m.book[k])
  {
  }

  // ------------------------------------------------------------------
  // Exits
  // ------------------------------------------------------------------

  /** The haircut that an exit leaves, and the sums it goes into, fit their fields. */
  predicate GapFits(m: MarketState, l: Lender, normalized: int, payout: int) {
    var p, carried, s := PositionOf(m.book, l), Carried(m, l, normalized), m.settlementFactor;
    var owed := carried + normalized - payout;
    && normalized <= U64_MAX && owed <= U64_MAX && payout + p.haircutOwed - carried <= U64_MAX
    && m.haircutAccumulator - p.haircutOwed + owed <= U64_MAX
    && PositionContribution(owed, s).Success?
    && m.weightSum - WeightOf(p) + Weight(owed, s) <= U128_MAX
    && m.offsetSum - OffsetOf(p) + Offset(owed, s) <= U128_MAX
  }

  lemma GapRecordedIff(m: MarketState, l: Lender, normalized: int, payout: int)
    requires Inv(m) && l in m.book && 1 <= m.settlementFactor < WAD && 0 <= payout < normalized
    ensures RecordGap(m, l, normalized, payout).Success? <==> GapFits(m, l, normalized, payout)
  {
    var p, s := m.book[l], m.settlementFactor;
    ShareOfAggregates(m, l);
    ContributionIs(p.haircutOwed, p.withdrawalSf);
    if 0 < p.haircutOwed {
      ClaimsDoNotOverflow(p.haircutOwed, p.withdrawalSf, s);
    }
    var owed := Carried(m, l, normalized) + normalized - payout;
    if PositionContribution(owed, s).Success? {
      ContributionIs(owed, s);
    }
  }

  /** An exit from a settled market is accepted if and only if the vault holds its share and what it
      recovers, and below full recovery the haircut it leaves fits. */
  predicate ExitAccepted(m: MarketState, l: Lender, normalized: int, payout: int) {
    && payout + PositionOf(m.book, l).haircutOwed - Carried(m, l, normalized) <= m.vault
    && (m.settlementFactor < WAD && 0 < normalized ==> GapFits(m, l, normalized, payout))
  }

  lemma LeaveSucceedsIff(m: MarketState, l: Lender, scaled: int, normalized: int, payout: int)
    requires Inv(m) && ExitAmounts(m, l, scaled, normalized, payout)
    requires m.settlementFactor == WAD ==> normalized <= U64_MAX
    ensures Leave(m, l, scaled, normalized, payout).Success? <==> ExitAccepted(m, l, normalized, payout)
  {
    ExitSplits(m, l, scaled, normalized, payout);
    ShareOfAggregates(m, l);
    if m.settlementFactor < WAD && 0 < normalized {
      GapRecordedIff(m, l, normalized, payout);
      if RecordGap(m, l, normalized, payout).Success? {
        RecordedPosition(m, l, normalized, payout);
      }
    }
  }

  /** The products that price an exit fit their fields. */
  predicate PriceFits(m: MarketState, e: Exit) {
    && e.scaled * m.scaleFactor <= U128_MAX
    && e.normalized * m.settlementFactor <= U128_MAX
    && e.payout <= U64_MAX
  }

  lemma CloseOutSucceedsIff(s: MarketState, l: Lender)
    requires Inv(s) && 1 <= s.settlementFactor
    ensures CloseOut(s, l).Success?
        <==> && l in s.book && 0 < s.book[l].scaledBalance
             && var e := ExitFrom(s, l, s.book[l].scaledBalance);
                PriceFits(s, e) && ExitAccepted(s, l, e.normalized, e.payout)
  {
    if l in s.book && 0 < s.book[l].scaledBalance {
      var e := ExitFrom(s, l, s.book[l].scaledBalance);
      ExitSplits(s, l, e.scaled, e.normalized, e.payout);
      if PriceFits(s, e) {
        LeaveSucceedsIff(s, l, e.scaled, e.normalized, e.payout);
      }
    }
  }

  lemma WithdrawShareLeaves(s: MarketState, l: Lender, scaledAmount: u128, minPayout: u64)
    requires l in s.book && WAD <= s.scaleFactor
    ensures var e := ExitFrom(s, l, if scaledAmount == 0 then s.book[l].scaledBalance else scaledAmount);
            0 <= e.payout ==>
              (WithdrawShare(s, l, scaledAmount, minPayout).Success?
               <==> && e.scaled <= s.book[l].scaledBalance && PriceFits(s, e)
                    && 0 < e.payout && minPayout <= e.payout
                    && Leave(s, l, e.scaled, e.normalized, e.payout).Success?)
  {
  }

  lemma WithdrawShareSucceedsIff(s: MarketState, l: Lender, scaledAmount: u128, minPayout: u64)
    requires Inv(s) && 1 <= s.settlementFactor && l in s.book
    ensures var e := ExitFrom(s, l, if scaledAmount == 0 then s.book[l].scaledBalance else scaledAmount);
            WithdrawShare(s, l, scaledAmount, minPayout).Success?
            <==> && e.scaled <= s.book[l].scaledBalance && PriceFits(s, e)
                 && 0 < e.payout && minPayout <= e.payout
                 && ExitAccepted(s, l, e.normalized, e.payout)
  {
    var e := ExitFrom(s, l, if scaledAmount == 0 then s.book[l].scaledBalance else scaledAmount);
    WithdrawShareLeaves(s, l, scaledAmount, minPayout);
    if e.scaled <= s.book[l].scaledBalance {
      ExitSplits(s, l, e.scaled, e.normalized, e.payout);
      if PriceFits(s, e) {
        LeaveSucceedsIff(s, l, e.scaled, e.normalized, e.payout);
      }
    }
  }

  /** The market as an exit would find it: interest at its end and the factor locked. */
  function AtExit(m: MarketState, cfg: Config, now: int): Result<MarketState> {
    var a :- Accrue(m, cfg, now);
    Settle(a)
  }

  /** A force-close succeeds if and only if the grace period is over, the lender still has shares, and
      the exit they make is accepted at the locked factor. */
  lemma ForceCloseSucceedsIff(m: MarketState, cfg: Config, now: int, l: Lender)
    requires Inv(m)
    ensures ForceClose(m, cfg, now, l).Success?
        <==> && !cfg.paused && m.maturity + SETTLEMENT_GRACE_PERIOD <= now
             && AtExit(m, cfg, now).Success?
             && var s := AtExit(m, cfg, now).value;
                && l in s.book && 0 < s.book[l].scaledBalance
                && var e := ExitFrom(s, l, s.book[l].scaledBalance);
                   PriceFits(s, e) && ExitAccepted(s, l, e.normalized, e.payout)
  {
    if m.maturity + SETTLEMENT_GRACE_PERIOD <= now && AtExit(m, cfg, now).Success? {
      SettledStart(m, cfg, now);
      AccrueFacts(m, cfg, now);
      CloseOutSucceedsIff(AtExit(m, cfg, now).value, l);
    }
  }

  /** A withdrawal succeeds if and only if the market has matured, and if still to settle is past the
      grace period, the lender has the shares, the share pays at least one unit and the minimum
      asked for, and the exit is accepted at the locked factor. */
  lemma WithdrawSucceedsIff(m: MarketState, cfg: Config, now: int, l: Lender, scaledAmount: u128, minPayout: u64)
    requires Inv(m)
    ensures Withdraw(m, cfg, now, l, scaledAmount, minPayout).Success?
        <==> && !cfg.paused && m.maturity <= now
             && (m.settlementFactor == 0 ==> m.maturity + SETTLEMENT_GRACE_PERIOD <= now)
             && AtExit(m, cfg, now).Success?
             && var s := AtExit(m, cfg, now).value;
                && l in s.book && 0 < s.book[l].scaledBalance
                && var e := ExitFrom(s, l, if scaledAmount == 0 then s.book[l].scaledBalance else scaledAmount);
                   && e.scaled <= s.book[l].scaledBalance && PriceFits(s, e)
                   && 0 < e.payout && minPayout <= e.payout
                   && ExitAccepted(s, l, e.normalized, e.payout)
  {
    if m.maturity <= now && AtExit(m, cfg, now).Success? {
      SettledStart(m, cfg, now);
      AccrueFacts(m, cfg, now);
      if l in m.book {
        WithdrawShareSucceedsIff(AtExit(m, cfg, now).value, l, scaledAmount, minPayout);
      }
    }
  }

  /** A minimum decides only whether the same withdrawal goes through: it does if the share paid at the
      locked factor meets the minimum, and is refused as below the minimum if not. */
  lemma MinimumOnlyDecides(m: MarketState, cfg: Config, now: int, l: Lender, scaledAmount: u128, minPayout: u64)
    requires Inv(m) && Withdraw(m, cfg, now, l, scaledAmount, 0).Success?
    ensures AtExit(m, cfg, now).Success?
    ensures var s := AtExit(m, cfg, now).value;
            var share := ExitFrom(s, l, if scaledAmount == 0 then m.book[l].scaledBalance else scaledAmount).payout;
            Withdraw(m, cfg, now, l, scaledAmount, minPayout)
            == if minPayout <= share then Withdraw(m, cfg, now, l, scaledAmount, 0) else Failure(PayoutBelowMinimum)
  {
    WithdrawUnfolds(m, cfg, now, l, scaledAmount, 0);
    SettledStart(m, cfg, now);
    var e := ShareIsExit(AtExit(m, cfg, now).value, l, scaledAmount, 0);
    MinimumOnShare(AtExit(m, cfg, now).value, l, scaledAmount, minPayout);
    assert Accrue(m, cfg, now).value.settlementFactor == m.settlementFactor;
  }

  lemma MinimumOnShare(s: MarketState, l: Lender, scaledAmount: u128, minPayout: u64)
    requires l in s.book && WithdrawShare(s, l, scaledAmount, 0).Success?
    requires 0 <= ExitFrom(s, l, if scaledAmount == 0 then s.book[l].scaledBalance else scaledAmount).payout
    ensures var share := ExitFrom(s, l, if scaledAmount == 0 then s.book[l].scaledBalance else scaledAmount).payout;
            WithdrawShare(s, l, scaledAmount, minPayout)
            == if minPayout <= share then WithdrawShare(s, l, scaledAmount, 0) else Failure(PayoutBelowMinimum)
  {
  }

  // ------------------------------------------------------------------
  // Pause and clock
  // ------------------------------------------------------------------

  /** A paused program refuses every call; only tokens sent from outside still arrive. */
  lemma PausedRefuses(m: MarketState, c: Call)
    requires c.cfg.paused && !c.ix.IxDonate?
    ensures Process(m, c).Failure?
    ensures Step(m, c) == m
  {
    assert Process(m, c).Failure?;
  }

  /** Before maturity an unpaused program refuses to settle as not matured, and says so before
      it speaks of the grace period. */
  lemma EarlyIsNotMatured(m: MarketState, cfg: Config, wl: Whitelist, now: int, l: Lender, x: u128, minPayout: u64)
    requires !cfg.paused && now < m.maturity
    ensures Withdraw(m, cfg, now, l, x, minPayout) == Failure(NotMatured)
    ensures ForceClose(m, cfg, now, l) == ForceClaimHaircut(m, cfg, now, l) == Failure(NotMatured)
    ensures wl.whitelisted ==> WithdrawExcess(m, wl, cfg, now) == Failure(NotMatured)
  {
  }

  /** A claim is refused for the first of these reasons that applies: nothing is settled, nothing is
      owed, the factor has not risen, nothing is due. */
  lemma ClaimRefusals(m: MarketState, cfg: Config, l: Lender)
    requires Inv(m) && !cfg.paused
    ensures m.settlementFactor == 0 ==> ClaimHaircut(m, cfg, l) == Failure(NotSettled)
    ensures 0 < m.settlementFactor && l in m.book ==>
              && (m.book[l].haircutOwed == 0 ==> ClaimHaircut(m, cfg, l) == Failure(NoHaircutToClaim))
              && (0 < m.book[l].haircutOwed && m.settlementFactor <= m.book[l].withdrawalSf ==>
                    ClaimHaircut(m, cfg, l) == Failure(SettlementNotImproved))
              && (0 < m.book[l].haircutOwed && m.book[l].withdrawalSf < m.settlementFactor
                  && ObligationsFit(m) && ClaimDue(m, l) <= 0 ==>
                    ClaimHaircut(m, cfg, l) == Failure(ZeroPayout))
  {
    if 0 < m.settlementFactor && l in m.book && 0 < m.book[l].haircutOwed
       && m.book[l].withdrawalSf < m.settlementFactor && ObligationsFit(m) {
      ClaimsDoNotOverflow(m.book[l].haircutOwed, m.book[l].withdrawalSf, m.settlementFactor);
      ObligationsFitIff(m);
    }
  }

  /** With no lenders left, the borrower's sweep waits for settlement, then for full recovery, then for
      the fees. */
  lemma ExcessRefusals(m: MarketState, wl: Whitelist, cfg: Config, now: int)
    requires Inv(m) && !cfg.paused && wl.whitelisted && m.maturity <= now && m.scaledSupply == 0
    ensures m.settlementFactor == 0 ==> WithdrawExcess(m, wl, cfg, now) == Failure(SettlementNotComplete)
    ensures 0 < m.settlementFactor < WAD ==> WithdrawExcess(m, wl, cfg, now) == Failure(FeeCollectionDuringDistress)
    ensures m.settlementFactor == WAD && 0 < m.fees ==> WithdrawExcess(m, wl, cfg, now) == Failure(FeesNotCollected)
  {
  }

  /** An amount of zero is refused as such, before anything else is looked at. */
  lemma ZeroIsRefused(m: MarketState, wl: Whitelist, cfg: Config, now: int, l: Lender)
    ensures Deposit(m, cfg, now, l, 0) == Failure(ZeroAmount)
    ensures Borrow(m, wl, cfg, now, 0) == Failure(ZeroAmount)
    ensures Repay(m, wl, cfg, now, 0) == Failure(ZeroAmount)
    ensures RepayInterest(m, cfg, now, 0) == Failure(ZeroAmount)
  {
  }

  /** A lender without shares has nothing to leave with, whatever amount it names. */
  lemma NoSharesIsRefused(m: MarketState, cfg: Config, now: int, l: Lender, scaledAmount: u128, minPayout: u64)
    requires Inv(m) && !cfg.paused && m.maturity + SETTLEMENT_GRACE_PERIOD <= now && AtExit(m, cfg, now).Success?
    requires l in m.book && m.book[l].scaledBalance == 0
    ensures Withdraw(m, cfg, now, l, scaledAmount, minPayout) == ForceClose(m, cfg, now, l) == Failure(NoBalance)
  {
    SettledStart(m, cfg, now);
    AccrueFacts(m, cfg, now);
  }

  /** Entry and loans end at maturity; exits, sweeps and forced claims begin there. */
  lemma MaturityDivides(m: MarketState, c: Call)
    requires Process(m, c).Success?
    ensures c.ix.IxDeposit? || c.ix.IxBorrow? ==> c.now < m.maturity
    ensures c.ix.IxWithdraw? || c.ix.IxWithdrawExcess? ==> m.maturity <= c.now
    ensures c.ix.IxForceClose? || c.ix.IxForceClaimHaircut? ==> m.maturity + SETTLEMENT_GRACE_PERIOD <= c.now
  {
  }
}
