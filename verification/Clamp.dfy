/** The factor is never less than one unit of 1e-18: when that promises more than the vault holds. */
module Clamp {
  import opened Outcomes
  import opened FixedPoint
  import opened Interest
  import opened Positions
  import opened Markets
  import opened Invariants
  import opened Accruals
  import opened Histories
  import opened Settlement
  import opened Solvency

  /** The first settlement covers the lenders exactly when their claims stay below one
      WAD for each unit of the vault and one more. */
  lemma FirstSettlementCoversIff(vault: int, total: int)
    requires 0 <= vault && 0 <= total && SettlementFactor(vault, total).Success?
    ensures Shortfall(vault, total, SettlementFactor(vault, total).value) == 0
        <==> total < WAD * (vault + 1)
  {
    SettlementFactorBounds(vault, total);
    var f := SettlementFactor(vault, total).value;
    if f == 1 {
      DivBounds(total * 1, WAD);
      if total < WAD * (vault + 1) {
        DivAtMost(total * 1, WAD, vault);
      } else {
        DivAtLeast(total * 1, WAD, vault + 1);
      }
    } else {
      assert f * total == total * f;
      DivAtMost(total * f, WAD, vault);
      MulLe(2, f, total);
      assert 2 * total <= vault * WAD;
    }
  }

  /** Claims of the lenders of `m` as the settlement that leads to `m'` values them. */
  function ClaimsAtSettlement(m: MarketState, m': MarketState): int {
    m.scaledSupply * m'.scaleFactor / WAD
  }

  predicate Settles(m: MarketState, c: Call) {
    m.settlementFactor == 0 < Step(m, c).settlementFactor
  }

  lemma ExitShortfall(h: History, m': MarketState, e: Exit, l: Lender)
    requires Inv(h.market) && h.market.settlementFactor == 0 && ExitOk(h.market, e, l)
    requires Departs(e.start, m', l, e.scaled, e.normalized, e.payout)
    ensures h.ledger.clampShortfall <= RecordExit(h.ledger, h.market, m', l).clampShortfall
    ensures RecordExit(h.ledger, h.market, m', l).clampShortfall == h.ledger.clampShortfall
        <==> ClaimsAtSettlement(h.market, m') < WAD * (h.market.vault + 1)
  {
    RemainingClaimsBounds(e.start);
    FirstSettlementCoversIff(h.market.vault, RemainingClaims(e.start));
  }

  /** The call that settles a market adds nothing to the shortfall if and only if the claims are
      below `WAD * (vault + 1)`. */
  lemma SettlementShortfallIff(h: History, c: Call)
    requires Inv(h.market) && Settles(h.market, c)
    ensures h.ledger.clampShortfall <= Advance(h, c).ledger.clampShortfall
    ensures Advance(h, c).ledger.clampShortfall == h.ledger.clampShortfall
        <==> ClaimsAtSettlement(h.market, Step(h.market, c)) < WAD * (h.market.vault + 1)
  {
    var m, m' := h.market, Step(h.market, c);
    FirstSettlement(m, c);
    if c.ix.IxWithdraw? {
      var e := WithdrawIsExit(m, c.cfg, c.now, c.ix.lender, c.ix.scaledAmount, c.ix.minPayout);
      ExitShortfall(h, m', e, c.ix.lender);
    } else {
      var e := ForceCloseIsExit(m, c.cfg, c.now, c.ix.lender);
      ExitShortfall(h, m', e, c.ix.lender);
    }
  }

  /** No other call touches the shortfall, except that a re-settlement clears it. */
  lemma OthersLeaveShortfall(h: History, c: Call)
    requires Inv(h.market) && !Settles(h.market, c)
    ensures Advance(h, c).ledger.clampShortfall
         == if c.ix.IxReSettle? && Process(h.market, c).Success? then 0 else h.ledger.clampShortfall
  {
    if Process(h.market, c).Success? && h.market.settlementFactor == 0 {
      if c.ix.IxWithdraw? {
        var e := WithdrawIsExit(h.market, c.cfg, c.now, c.ix.lender, c.ix.scaledAmount, c.ix.minPayout);
      } else if c.ix.IxForceClose? {
        var e := ForceCloseIsExit(h.market, c.cfg, c.now, c.ix.lender);
      }
    }
  }

  /** Along the run, the call that settles finds claims below `WAD * (vault + 1)`. */
  predicate SettlesWithinReach(m: MarketState, calls: seq<Call>)
    decreases |calls|
  {
    |calls| == 0 ||
    (var m' := Step(m, calls[0]);
     && (Settles(m, calls[0]) ==> ClaimsAtSettlement(m, m') < WAD * (m.vault + 1))
     && SettlesWithinReach(m', calls[1..]))
  }

  /** The shortfall stays zero over every run whose first settlement is within reach. */
  lemma {:induction false} NoClampShortfall(h: History, calls: seq<Call>)
    requires Inv(h.market) && h.ledger.clampShortfall == 0 && SettlesWithinReach(h.market, calls)
    ensures Trace(h, calls).ledger.clampShortfall == 0
    decreases |calls|
  {
    if |calls| == 0 {
    } else {
      if Settles(h.market, calls[0]) {
        SettlementShortfallIff(h, calls[0]);
      } else {
        OthersLeaveShortfall(h, calls[0]);
      }
      if Process(h.market, calls[0]).Success? {
        ProcessKeepsInv(h.market, calls[0]);
      }
      NoClampShortfall(Advance(h, calls[0]), calls[1..]);
    }
  }

  lemma {:induction false} SettledStaysWithinReach(m: MarketState, calls: seq<Call>)
    requires Inv(m) && 0 < m.settlementFactor
    ensures SettlesWithinReach(m, calls)
    decreases |calls|
  {
    if |calls| == 0 {
    } else {
      SettledStep(m, calls[0]);
      if Process(m, calls[0]).Success? {
        ProcessKeepsInv(m, calls[0]);
      }
      SettledStaysWithinReach(Step(m, calls[0]), calls[1..]);
    }
  }

  /** Until a re-settlement clears it, the shortfall is zero if and only if the first settlement
      was within reach. */
  lemma {:induction false} NoClampShortfallIff(h: History, calls: seq<Call>)
    requires Inv(h.market) && ReSettlements(h.market, calls) == 0
    ensures h.ledger.clampShortfall <= Trace(h, calls).ledger.clampShortfall
    ensures Trace(h, calls).ledger.clampShortfall == h.ledger.clampShortfall <==> SettlesWithinReach(h.market, calls)
    decreases |calls|
  {
    if |calls| == 0 {
    } else {
      if Process(h.market, calls[0]).Success? {
        ProcessKeepsInv(h.market, calls[0]);
      }
      NoClampShortfallIff(Advance(h, calls[0]), calls[1..]);
      if Settles(h.market, calls[0]) {
        SettlementShortfallIff(h, calls[0]);
        SettledStaysWithinReach(Step(h.market, calls[0]), calls[1..]);
      } else {
        OthersLeaveShortfall(h, calls[0]);
      }
    }
  }

  // ------------------------------------------------------------------
  // Exits from a market that is yet to settle
  // ------------------------------------------------------------------

  /** Locking the factor within reach leaves a market whose shares the vault covers. */
  lemma SettlingWithinReach(a: MarketState)
    requires Inv(a) && a.settlementFactor == 0 && a.lastAccrual == a.maturity && Settle(a).Success?
    requires RemainingClaims(a) < WAD * (a.vault + 1)
    ensures var s := Settle(a).value;
            Inv(s) && 1 <= s.settlementFactor && s.book == a.book && Vouched(History(s, NEW_LEDGER))
  {
    SettleFacts(a);
    NoHaircutsBeforeSettlement(a);
    RemainingClaimsBounds(a);
    FirstSettlementCoversIff(a.vault, RemainingClaims(a));
  }

  lemma SettlingExits(a: MarketState, l: Lender, scaledAmount: u128, minPayout: u64)
    requires Inv(a) && a.settlementFactor == 0 && a.lastAccrual == a.maturity && Settle(a).Success?
    requires RemainingClaims(a) < WAD * (a.vault + 1)
    ensures l in a.book ==> WithdrawShare(Settle(a).value, l, scaledAmount, minPayout) != Failure(TransferFailed)
    ensures CloseOut(Settle(a).value, l) != Failure(TransferFailed)
  {
    SettlingWithinReach(a);
    var h := History(Settle(a).value, NEW_LEDGER);
    CloseOutNeverShort(h, l);
    if l in a.book {
      ShareNeverShort(h, l, scaledAmount, minPayout);
    }
  }

  /** What the vault must hold for no exit to run short: nothing outstanding in a settled market, and
      claims within reach in one that the exit would settle. */
  ghost predicate NothingOutstanding(h: History, cfg: Config, now: int) {
    var m, a := h.market, Accrue(h.market, cfg, now);
    if m.settlementFactor == 0 then a.Success? ==> RemainingClaims(a.value) < WAD * (m.vault + 1)
    else h.ledger.lossyRebases == 0 && h.ledger.clampShortfall == 0
  }

  lemma NoSettlingExitRunsShort(m: MarketState, cfg: Config, now: int, l: Lender, scaledAmount: u128, minPayout: u64)
    requires Inv(m) && m.settlementFactor == 0 && m.maturity <= now && Accrue(m, cfg, now).Success?
    requires RemainingClaims(Accrue(m, cfg, now).value) < WAD * (m.vault + 1)
    ensures Withdraw(m, cfg, now, l, scaledAmount, minPayout) != Failure(TransferFailed)
    ensures ForceClose(m, cfg, now, l) != Failure(TransferFailed)
  {
    AccrueFacts(m, cfg, now);
    var a := Accrue(m, cfg, now).value;
    if Settle(a).Success? {
      SettlingExits(a, l, scaledAmount, minPayout);
    }
  }

  lemma GrowthErrors(bps: int, elapsed: nat)
    ensures Growth(bps, elapsed) != Failure(TransferFailed)
  {
    var days := elapsed / SECONDS_PER_DAY;
    PowErrors(WAD, WAD + DailyRate(bps), days);
  }

  lemma {:induction false} PowErrors(acc: int, b: int, e: nat)
    ensures PowLoop(acc, b, e) != Failure(TransferFailed)
    decreases e
  {
    if e == 0 {
    } else if e % 2 == 1 && MulWad(acc, b).Failure? {
    } else if e / 2 > 0 && MulWad(b, b).Success? {
      PowErrors(if e % 2 == 1 then MulWad(acc, b).value else acc, MulWad(b, b).value, e / 2);
    }
  }

  lemma AccrueErrors(m: MarketState, cfg: Config, now: int)
    ensures Accrue(m, cfg, now) != Failure(TransferFailed)
  {
    var e := Min(now, m.maturity) - m.lastAccrual;
    if 0 < e {
      GrowthErrors(m.annualBps, e);
    }
  }

  lemma ExitErrorsBefore(m: MarketState, cfg: Config, now: int, l: Lender, scaledAmount: u128, minPayout: u64)
    requires now < m.maturity || Accrue(m, cfg, now).Failure?
    ensures Withdraw(m, cfg, now, l, scaledAmount, minPayout) != Failure(TransferFailed)
    ensures ForceClose(m, cfg, now, l) != Failure(TransferFailed)
  {
    AccrueErrors(m, cfg, now);
  }

  /** No withdrawal and no force-close fails for want of tokens, whoever leaves, whatever is
      re-anchored, and whether or not the exit settles the market. */
  lemma NoExitRunsShort(h: History, cfg: Config, now: int, l: Lender, scaledAmount: u128, minPayout: u64)
    requires Inv(h.market) && Vouched(h) && NothingOutstanding(h, cfg, now)
    ensures Withdraw(h.market, cfg, now, l, scaledAmount, minPayout) != Failure(TransferFailed)
    ensures ForceClose(h.market, cfg, now, l) != Failure(TransferFailed)
  {
    var m := h.market;
    if 1 <= m.settlementFactor {
      NoSettledExitRunsShort(h, cfg, now, l, scaledAmount, minPayout);
    } else if m.maturity <= now && Accrue(m, cfg, now).Success? {
      NoSettlingExitRunsShort(m, cfg, now, l, scaledAmount, minPayout);
    } else {
      ExitErrorsBefore(m, cfg, now, l, scaledAmount, minPayout);
    }
  }

  // ------------------------------------------------------------------
  // Markets with a cap too small for the clamp to matter
  // ------------------------------------------------------------------

  /** Until settlement the shares never outnumber the deposits, nor those the cap. */
  predicate WithinCap(m: MarketState, cap: int) {
    m.settlementFactor == 0 ==> m.scaledSupply <= m.totalDeposited <= cap == m.maxTotalSupply
  }

  lemma DepositWithinCap(m: MarketState, cfg: Config, now: int, l: Lender, amount: u64, cap: int)
    requires Inv(m) && WithinCap(m, cap) && Deposit(m, cfg, now, l, amount).Success?
    ensures WithinCap(Deposit(m, cfg, now, l, amount).value, cap)
  {
    DepositKeepsInv(m, cfg, now, l, amount);
    AccrueFacts(m, cfg, now);
    var f := Accrue(m, cfg, now).value.scaleFactor;
    MulLe(WAD, f, amount);
    DivAtMost(amount * WAD, f, amount);
  }

  lemma StepWithinCap(m: MarketState, c: Call, cap: int)
    requires Inv(m) && m.settlementFactor == 0 && WithinCap(m, cap)
    ensures WithinCap(Step(m, c), cap)
  {
    if Process(m, c).Success? && !Settles(m, c) {
      match c.ix
      case IxDeposit(l, amount) => DepositWithinCap(m, c.cfg, c.now, l, amount, cap);
      case IxWithdraw(l, x, minPayout) =>
        var e := WithdrawIsExit(m, c.cfg, c.now, l, x, minPayout);
      case IxForceClose(l) =>
        var e := ForceCloseIsExit(m, c.cfg, c.now, l);
      case _ =>
    }
  }

  lemma SmallClaims(supply: int, factor: int, cap: int, vault: int)
    requires 0 <= supply <= cap && 0 <= factor <= MAX_GROWTH * WAD && MAX_GROWTH * cap < WAD && 0 <= vault
    ensures supply * factor / WAD < WAD * (vault + 1)
  {
    MulLe(supply, cap, factor);
    MulLe(factor, MAX_GROWTH * WAD, cap);
    DivAtMost(supply * factor, WAD, MAX_GROWTH * cap);
  }

  lemma {:induction false} SmallMarketsSettleWithinReach(m: MarketState, calls: seq<Call>, cap: int)
    requires Inv(m) && m.settlementFactor == 0 && WithinCap(m, cap) && MAX_GROWTH * cap < WAD
    ensures SettlesWithinReach(m, calls)
    decreases |calls|
  {
    if |calls| == 0 {
    } else {
      var m' := Step(m, calls[0]);
      StepWithinCap(m, calls[0], cap);
      if Process(m, calls[0]).Success? {
        ProcessKeepsInv(m, calls[0]);
      }
      AccrualNeverOverflows(m', calls[0].cfg, calls[0].now);
      SmallClaims(m.scaledSupply, m'.scaleFactor, cap, m.vault);
      if m'.settlementFactor == 0 {
        SmallMarketsSettleWithinReach(m', calls[1..], cap);
      } else {
        SettledStaysWithinReach(m', calls[1..]);
      }
    }
  }

  lemma SmallRunsAreSolvent(h: History, cap: int, calls: seq<Call>)
    requires Inv(h.market) && Vouched(h) && h.market.settlementFactor == 0
    requires WithinCap(h.market, cap) && MAX_GROWTH * cap < WAD
    ensures Trace(h, calls).market == Run(h.market, calls)
    ensures Trace(h, calls).ledger.clampShortfall == 0
    ensures SolventByLedger(Trace(h, calls))
  {
    SmallMarketsSettleWithinReach(h.market, calls, cap);
    NoClampShortfall(h, calls);
    RunsAreSolvent(h, calls);
  }

  lemma NewMarketIsWithinCap(m: MarketState, cfg: Config, wl: Whitelist, annualBps: nat, maturity: int, cap: u64,
                             now: int)
    requires CreateMarket(cfg, wl, annualBps, maturity, cap, now) == Success(m)
    ensures m.settlementFactor == 0 && WithinCap(m, cap)
  {
  }

  /** A market whose deposit cap, grown as far as interest can take it, stays below one WAD is
      solvent after any calls at all with one unit for all but one of the rounding rebases since the
      last re-settlement: the clamp costs nothing. */
  lemma SmallMarketsAreSolvent(created: MarketState, cfg: Config, wl: Whitelist, annualBps: nat, maturity: int,
                               cap: u64, now: int, calls: seq<Call>)
    requires CreateMarket(cfg, wl, annualBps, maturity, cap, now) == Success(created)
    requires MAX_GROWTH * cap < WAD
    ensures SolventByLedger(Trace(History(created, NEW_LEDGER), calls))
    ensures Trace(History(created, NEW_LEDGER), calls).ledger.clampShortfall == 0
    ensures Trace(History(created, NEW_LEDGER), calls).market == Run(created, calls)
  {
    NewMarketIsVouched(created, cfg, wl, annualBps, maturity, cap, now);
    NewMarketIsWithinCap(created, cfg, wl, annualBps, maturity, cap, now);
    SmallRunsAreSolvent(History(created, NEW_LEDGER), cap, calls);
  }
}
