/** What settlement fixes for good, and how good each re-settlement is. */
module Settlement {
  import opened Outcomes
  import opened FixedPoint
  import opened Haircuts
  import opened Sums
  import opened Positions
  import opened Markets
  import opened Invariants
  import opened Histories
  import opened Conservation

  // ------------------------------------------------------------------
  // Settlement freezes the market
  // ------------------------------------------------------------------

  lemma ExitFreezes(m: MarketState, m': MarketState, e: Exit, l: Lender)
    requires Inv(m) && 0 < m.settlementFactor && ExitOk(m, e, l)
    requires Departs(e.start, m', l, e.scaled, e.normalized, e.payout)
    ensures SameTerms(m, m') && m'.scaledSupply <= m.scaledSupply && m'.settlementFactor == m.settlementFactor
  {
  }

  /** After settlement no call moves the scale factor or adds supply, and only a
      re-settlement moves the settlement factor, upwards. */
  lemma SettledStep(m: MarketState, c: Call)
    requires Inv(m) && 0 < m.settlementFactor
    ensures var m' := Step(m, c);
            && SameTerms(m, m')
            && m'.scaledSupply <= m.scaledSupply
            && m.settlementFactor <= m'.settlementFactor <= WAD
            && (c.ix.IxReSettle? && Process(m, c).Success? <==> m'.settlementFactor != m.settlementFactor)
  {
    if Process(m, c).Success? {
      var m' := Process(m, c).value.0;
      if IsEntryOrInflow(c.ix) {
        EntryOrInflowFacts(m, c);
      } else if IsSweep(c.ix) {
        SweepFacts(m, c);
      } else {
        match c.ix
        case IxWithdraw(l, x, minPayout) =>
          var e := WithdrawIsExit(m, c.cfg, c.now, l, x, minPayout);
          ExitFreezes(m, m', e, l);
        case IxForceClose(l) =>
          var e := ForceCloseIsExit(m, c.cfg, c.now, l);
          ExitFreezes(m, m', e, l);
        case IxClaimHaircut(l) => PayClaimFacts(m, l);
        case IxForceClaimHaircut(l) => PayClaimFacts(m, l);
        case IxReSettle => ReSettleFacts(m, c.cfg, c.now);
        case IxClosePosition(l) =>
      }
    }
  }

  predicate SettledAtShare(m: MarketState, m': MarketState) {
    CoveredShare(m'.settlementFactor, m.vault, m.scaledSupply * m'.scaleFactor / WAD)
  }

  lemma ExitSettles(m: MarketState, m': MarketState, e: Exit, l: Lender)
    requires Inv(m) && m.settlementFactor == 0 && ExitOk(m, e, l)
    requires m'.settlementFactor == e.start.settlementFactor && m'.scaleFactor == e.start.scaleFactor
    ensures SettledAtShare(m, m')
  {
    RemainingClaimsBounds(e.start);
    SettlementFactorBounds(m.vault, RemainingClaims(e.start));
  }

  lemma WithdrawalWaits(m: MarketState, cfg: Config, now: int, l: Lender, scaledAmount: u128, minPayout: u64)
    requires Withdraw(m, cfg, now, l, scaledAmount, minPayout).Success? && m.settlementFactor == 0
    ensures m.maturity + SETTLEMENT_GRACE_PERIOD <= now && !cfg.paused
  {
    assert Accrue(m, cfg, now).value.settlementFactor == m.settlementFactor;
  }

  lemma WithdrawalSettles(m: MarketState, cfg: Config, now: int, l: Lender, scaledAmount: u128, minPayout: u64)
    requires Inv(m) && m.settlementFactor == 0
    requires Withdraw(m, cfg, now, l, scaledAmount, minPayout).Success?
    ensures SettledAtShare(m, Withdraw(m, cfg, now, l, scaledAmount, minPayout).value)
  {
    var e := WithdrawIsExit(m, cfg, now, l, scaledAmount, minPayout);
    ExitSettles(m, Withdraw(m, cfg, now, l, scaledAmount, minPayout).value, e, l);
  }

  lemma ForceCloseSettles(m: MarketState, cfg: Config, now: int, l: Lender)
    requires Inv(m) && m.settlementFactor == 0 && ForceClose(m, cfg, now, l).Success?
    ensures SettledAtShare(m, ForceClose(m, cfg, now, l).value)
  {
    var e := ForceCloseIsExit(m, cfg, now, l);
    ExitSettles(m, ForceClose(m, cfg, now, l).value, e, l);
  }

  lemma OnlyExitsSettle(m: MarketState, c: Call)
    requires Inv(m) && m.settlementFactor == 0 && !c.ix.IxWithdraw? && !c.ix.IxForceClose?
    ensures Step(m, c).settlementFactor == 0
  {
    if Process(m, c).Success? {
      if IsEntryOrInflow(c.ix) {
        EntryOrInflowFacts(m, c);
      } else if IsSweep(c.ix) {
        SweepFacts(m, c);
      }
    }
  }

  /** An unsettled market settles only by an exit after the grace period, at the share of the
      claims that the whole vault covers. */
  lemma FirstSettlement(m: MarketState, c: Call)
    requires Inv(m) && m.settlementFactor == 0 && 0 < Step(m, c).settlementFactor
    ensures c.ix.IxWithdraw? || c.ix.IxForceClose?
    ensures m.maturity + SETTLEMENT_GRACE_PERIOD <= c.now && !c.cfg.paused
    ensures SettledAtShare(m, Step(m, c))
  {
    if c.ix.IxWithdraw? {
      WithdrawalWaits(m, c.cfg, c.now, c.ix.lender, c.ix.scaledAmount, c.ix.minPayout);
      WithdrawalSettles(m, c.cfg, c.now, c.ix.lender, c.ix.scaledAmount, c.ix.minPayout);
    } else if c.ix.IxForceClose? {
      ForceCloseSettles(m, c.cfg, c.now, c.ix.lender);
    } else {
      OnlyExitsSettle(m, c);
    }
  }

  /** Successful re-settlements along a run. */
  function ReSettlements(m: MarketState, calls: seq<Call>): nat
    decreases |calls|
  {
    if |calls| == 0 then 0
    else (if calls[0].ix.IxReSettle? && Process(m, calls[0]).Success? then 1 else 0)
         + ReSettlements(Step(m, calls[0]), calls[1..])
  }

  /** The factor is a measure: a run can re-settle at most as often as there is room up to WAD. */
  lemma {:induction false} SettlementFreezes(m: MarketState, calls: seq<Call>)
    requires Inv(m) && 0 < m.settlementFactor
    ensures var m' := Run(m, calls);
            && SameTerms(m, m')
            && m'.scaledSupply <= m.scaledSupply
            && m.settlementFactor + ReSettlements(m, calls) <= m'.settlementFactor <= WAD
    decreases |calls|
  {
    if |calls| == 0 {
    } else {
      SettledStep(m, calls[0]);
      if Process(m, calls[0]).Success? {
        ProcessKeepsInv(m, calls[0]);
      }
      SettlementFreezes(Step(m, calls[0]), calls[1..]);
    }
  }

  /** Nobody can enter or borrow once the market is settled, whatever the clock says. */
  lemma NoEntryAfterSettlement(m: MarketState, cfg: Config, wl: Whitelist, now: int, l: Lender, amount: u64)
    requires Inv(m) && 0 < m.settlementFactor
    ensures Deposit(m, cfg, now, l, amount).Failure?
    ensures Borrow(m, wl, cfg, now, amount).Failure?
  {
  }

  // ------------------------------------------------------------------
  // Re-settlement
  // ------------------------------------------------------------------

  /** A re-settlement takes the greatest factor that the aggregates carry. */
  lemma ReSettleIsGreatest(m: MarketState, cfg: Config, now: int, t: int)
    requires Inv(m) && ReSettle(m, cfg, now).Success?
    requires 1 <= t <= WAD
    ensures t <= ReSettle(m, cfg, now).value.settlementFactor
        <==> Carries(m.vault, RemainingClaims(m), m.weightSum, m.offsetSum, t)
  {
    ReSettleFacts(m, cfg, now);
    RemainingClaimsBounds(m);
    var f := ReSettle(m, cfg, now).value.settlementFactor;
    ResettleFactorIsGreatest(m.vault, RemainingClaims(m), m.weightSum, m.offsetSum, t);
    if t <= f {
      MulLe(t, f, RemainingClaims(m) + m.weightSum);
    }
  }

  /** Any greater factor would owe more than the vault holds, were each outstanding haircut
      two units dearer than its exact claim. */
  lemma ReSettleIsNearOptimal(m: MarketState, cfg: Config, now: int, t: int)
    requires Inv(m) && ReSettle(m, cfg, now).Success?
    requires ReSettle(m, cfg, now).value.settlementFactor < t <= WAD
    ensures WAD * m.vault
          < RemainingClaims(m) * t + WAD * (SumOf(m.book, ClaimAt(t)) + 2 * SumOf(m.book, HaircutCount))
  {
    ReSettleFacts(m, cfg, now);
    ReSettleIsGreatest(m, cfg, now, t);
    LinesCoverClaims(m.book, m.settlementFactor, t);
    var r := RemainingClaims(m);
    assert t * (r + m.weightSum) == r * t + t * m.weightSum;
  }

  /** The products and sums of a re-settlement fit in 128 bits. */
  predicate SolverFits(m: MarketState) {
    var d := RemainingClaims(m) + m.weightSum;
    && m.scaledSupply * m.scaleFactor <= U128_MAX
    && d <= U128_MAX
    && (0 < d ==> (m.vault + m.offsetSum) * WAD <= U128_MAX)
  }

  lemma SolverFitsIff(m: MarketState)
    requires MoneyOk(m) && WAD <= m.scaleFactor
    ensures SolverFits(m) <==>
              && Normalize(m.scaledSupply, m.scaleFactor) == Success(RemainingClaims(m))
              && ComputeResettleFactor(m.vault, RemainingClaims(m), m.weightSum, m.offsetSum).Success?
  {
    RemainingClaimsBounds(m);
    MulLe(1, WAD, m.vault + m.offsetSum);
  }

  lemma SolverErrors(m: MarketState, cfg: Config, now: int)
    requires Inv(m) && 0 < m.settlementFactor && !cfg.paused && m.maturity <= now
    ensures ReSettle(m, cfg, now) ==
              if !SolverFits(m) then Failure(MathOverflow)
              else
                var f := ComputeResettleFactor(m.vault, RemainingClaims(m), m.weightSum, m.offsetSum).value;
                if f <= m.settlementFactor then Failure(SettlementNotImproved) else Success(m.(settlementFactor := f))
  {
    assert Accrue(m, cfg, now) == Success(m);
    SolverFitsIff(m);
  }

  /** A re-settlement of a settled market succeeds if and only if its arithmetic fits and the
      aggregates carry a factor one step above the current one; when the arithmetic does not
      fit it is refused as an overflow, whatever the vault holds. */
  lemma ReSettleSucceedsIff(m: MarketState, cfg: Config, now: int)
    requires Inv(m) && 0 < m.settlementFactor && !cfg.paused && m.maturity <= now
    ensures ReSettle(m, cfg, now).Success?
        <==> SolverFits(m) && m.settlementFactor < WAD
             && Carries(m.vault, RemainingClaims(m), m.weightSum, m.offsetSum, m.settlementFactor + 1)
    ensures ReSettle(m, cfg, now) == Failure(MathOverflow) <==> !SolverFits(m)
  {
    var s, r := m.settlementFactor, RemainingClaims(m);
    RemainingClaimsBounds(m);
    SolverErrors(m, cfg, now);
    if SolverFits(m) {
      SolverFitsIff(m);
      var f := ComputeResettleFactor(m.vault, r, m.weightSum, m.offsetSum).value;
      ResettleFactorIsGreatest(m.vault, r, m.weightSum, m.offsetSum, s + 1);
      if s < f {
        MulLe(s + 1, f, r + m.weightSum);
      }
    }
  }

  /** The solver can overflow: one-unit haircuts anchored one step below WAD weigh WAD each, and
      341 of them are too many. */
  lemma SolverCanOverflow()
    ensures PositionContribution(1, WAD - 1) == Success((WAD, WAD - 1))
    ensures ComputeResettleFactor(WAD, WAD, 341 * WAD, 341 * (WAD - 1)) == Failure(MathOverflow)
  {
    DivIs(WAD + 1 - 1, 1, WAD);
    DivIs(WAD * (WAD - 1), WAD, WAD - 1);
  }

  // ------------------------------------------------------------------
  // When a re-settlement recovers everything
  // ------------------------------------------------------------------

  function RoundedUpOf(p: Position): int {
    RoundedUp(p.haircutOwed, p.withdrawalSf)
  }

  lemma {:induction false} LinesAtWad(book: Book, s: int)
    requires forall l :: l in book ==> PositionOk(book[l], s)
    ensures SumOf(book, WeightOf) - SumOf(book, OffsetOf) == SumOf(book, OwedOf) + SumOf(book, RoundedUpOf)
    decreases |book|
  {
    if |book| == 0 {
    } else {
      var p := book[Pick(book)];
      LinesAtWad(book - {Pick(book)}, s);
      if 0 < p.haircutOwed {
        OffsetForm(p.haircutOwed, p.withdrawalSf);
      } else {
        assert 0 * p.withdrawalSf == 0;
      }
    }
  }

  /** A re-settlement reaches WAD if and only if the vault holds what is owed and one unit more for
      each haircut whose weight was rounded up. */
  lemma ReSettleReachesWadIff(m: MarketState, cfg: Config, now: int)
    requires Inv(m) && ReSettle(m, cfg, now).Success?
    ensures ReSettle(m, cfg, now).value.settlementFactor == WAD
        <==> RemainingClaims(m) + m.haircutAccumulator + SumOf(m.book, RoundedUpOf) <= m.vault
  {
    ReSettleFacts(m, cfg, now);
    ReSettleIsGreatest(m, cfg, now, WAD);
    LinesAtWad(m.book, m.settlementFactor);
  }

  /** Repeating a re-settlement on the state it left changes nothing. */
  lemma ReSettleIsIdempotent(m: MarketState, cfg: Config, now: int, now': int)
    requires Inv(m) && ReSettle(m, cfg, now).Success? && m.maturity <= now'
    ensures ReSettle(ReSettle(m, cfg, now).value, cfg, now') == Failure(SettlementNotImproved)
  {
  }

  /** Slack of the re-settlement line at factor `t`, in units of 1/WAD. */
  function LineSlack(m: MarketState, t: int): int {
    WAD * (m.vault + m.offsetSum) - t * (RemainingClaims(m) + m.weightSum)
  }

  lemma SlackAlgebra(v: int, o: int, r: int, w: int, t: int, paid: int, gapO: int, gapW: int, r': int, n: int)
    requires 0 <= t && r' + n <= r
    requires WAD * paid + (gapW * t - WAD * gapO) - t * n <= WAD
    ensures WAD * (v + o) - t * (r + w) - WAD <= WAD * (v - paid + (o + gapO)) - t * (r' + (w + gapW))
  {
    MulLe(r' + n, r, t);
    assert t * (r' + n) == t * r' + t * n;
    assert t * (r' + (w + gapW)) == t * r' + t * w + t * gapW;
    assert t * (r + w) == t * r + t * w;
    assert gapW * t == t * gapW;
  }

  /** A first distressed exit costs the re-settlement line at most one unit, at every
      factor still ahead; so exits never make a later recovery worse by more than that. */
  lemma FirstExitKeepsLine(m: MarketState, m': MarketState, l: Lender, scaled: int, normalized: int, payout: int,
                           t: int)
    requires Inv(m) && ExitAmounts(m, l, scaled, normalized, payout)
    requires Departs(m, m', l, scaled, normalized, payout)
    requires m.settlementFactor < WAD && m.book[l].haircutOwed == 0 && 0 < normalized
    requires m.settlementFactor <= t <= WAD
    ensures LineSlack(m, t) - WAD <= LineSlack(m', t)
  {
    ExitSplits(m, l, scaled, normalized, payout);
    GapCostsOneUnit(normalized, m.settlementFactor, t);
    assert 0 * m.book[l].withdrawalSf == 0;
    var gap := normalized - payout;
    SlackAlgebra(m.vault, m.offsetSum, RemainingClaims(m), m.weightSum, t, payout,
                 Offset(gap, m.settlementFactor), Weight(gap, m.settlementFactor), RemainingClaims(m'), normalized);
  }

  // ------------------------------------------------------------------
  // Full recovery
  // ------------------------------------------------------------------

  lemma CoveredClaimsFit(m: MarketState)
    requires Inv(m) && m.settlementFactor == WAD
    ensures Normalize(m.scaledSupply, m.scaleFactor) == Success(RemainingClaims(m))
    ensures Normalize(RemainingClaims(m), WAD) == Success(RemainingClaims(m))
    ensures 0 <= RemainingClaims(m) <= m.vault
  {
    RemainingClaimsBounds(m);
    DivBounds(m.scaledSupply * m.scaleFactor, WAD);
    DivIs(RemainingClaims(m) * WAD, WAD, RemainingClaims(m));
  }

  /** Once the factor is WAD every claim on an unpaid haircut succeeds and pays all of it. */
  lemma FullRecovery(m: MarketState, cfg: Config, l: Lender)
    requires Inv(m) && m.settlementFactor == WAD
    requires !cfg.paused && l in m.book && 0 < m.book[l].haircutOwed
    ensures RemainingClaims(m) + m.haircutAccumulator <= m.vault
    ensures m.book[l].withdrawalSf < WAD
    ensures var r := ClaimHaircut(m, cfg, l);
            && r.Success?
            && m.vault - r.value.vault == m.book[l].haircutOwed
            && r.value.book == m.book[l := Position(m.book[l].scaledBalance, 0, 0)]
            && Inv(r.value) && r.value.settlementFactor == WAD
            && OnlyClaimed(m, r.value)
  {
    CoveredClaimsFit(m);
    ShareOfAggregates(m, l);
    var p := m.book[l];
    ClaimsDoNotOverflow(p.haircutOwed, p.withdrawalSf, WAD);
    ClaimEndpoints(p.haircutOwed, p.withdrawalSf);
    ContributionIs(p.haircutOwed, p.withdrawalSf);
    PayClaimSucceeds(m, l);
    PayClaimFacts(m, l);
    ClaimAtWadPaysAll(m, PayClaim(m, l).value, l);
    PayClaimKeepsInv(m, l);
  }

  /** Nothing but the vault, one position and the haircut aggregates moved. */
  predicate OnlyClaimed(m: MarketState, m': MarketState) {
    m' == m.(vault := m'.vault, book := m'.book, haircutAccumulator := m'.haircutAccumulator,
             weightSum := m'.weightSum, offsetSum := m'.offsetSum)
  }

  lemma PayClaimSucceeds(m: MarketState, l: Lender)
    requires Inv(m) && m.settlementFactor == WAD && l in m.book && 0 < m.book[l].haircutOwed
    ensures PayClaim(m, l).Success?
  {
    CoveredClaimsFit(m);
    ShareOfAggregates(m, l);
    var p := m.book[l];
    ClaimsDoNotOverflow(p.haircutOwed, p.withdrawalSf, WAD);
    ClaimEndpoints(p.haircutOwed, p.withdrawalSf);
    ContributionIs(p.haircutOwed, p.withdrawalSf);
    assert RemainingObligations(m).Success? && RemainingObligations(m).value <= RemainingClaims(m);
  }

  /** Full recovery is permanent: no call, no fee sweep and no excess sweep can undo it. */
  lemma FullRecoveryIsPermanent(m: MarketState, calls: seq<Call>)
    requires Inv(m) && m.settlementFactor == WAD
    ensures var m' := Run(m, calls);
            && m'.settlementFactor == WAD
            && RemainingClaims(m') + m'.haircutAccumulator <= m'.vault
            && (forall l :: l in m'.book && 0 < m'.book[l].haircutOwed ==> m'.book[l].withdrawalSf < WAD)
  {
    SettlementFreezes(m, calls);
    RunKeepsInv(m, calls);
  }

  /** What a sweep leaves: fees never reach below the lenders' claims and the haircut reserve,
      and the borrower's excess sweep leaves exactly the reserve. */
  lemma SweepsLeaveTheReserve(m: MarketState, wl: Whitelist, cfg: Config, now: int)
    requires Inv(m)
    ensures CollectFees(m, cfg, now).Success? ==>
              var m' := CollectFees(m, cfg, now).value;
              && RemainingClaims(m') + m'.haircutAccumulator <= m'.vault
              && m'.fees < Accrue(m, cfg, now).value.fees
    ensures WithdrawExcess(m, wl, cfg, now).Success? ==>
              && m.settlementFactor == WAD && m.scaledSupply == 0 && m.fees == 0
              && WithdrawExcess(m, wl, cfg, now).value == m.(vault := m.haircutAccumulator)
              && m.haircutAccumulator < m.vault
  {
    if CollectFees(m, cfg, now).Success? {
      CollectFeesTakes(m, cfg, now);
    }
  }
}
