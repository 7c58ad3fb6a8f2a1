/** What lenders are due after maturity is neither created nor lost. */
module Conservation {
  import opened Outcomes
  import opened FixedPoint
  import opened Positions
  import opened Markets
  import opened Invariants
  import opened Histories

  /** Interest has run to its end; no deposit can be made any more. */
  predicate Matured(m: MarketState) {
    m.lastAccrual == m.maturity
  }

  function Normalized(m: MarketState, l: Lender): int {
    PositionOf(m.book, l).scaledBalance * m.scaleFactor / WAD
  }

  function Owed(m: MarketState, l: Lender): int {
    PositionOf(m.book, l).haircutOwed
  }

  predicate SameTerms(m: MarketState, m': MarketState) {
    && m'.scaleFactor == m.scaleFactor
    && m'.maturity == m.maturity
    && m'.lastAccrual == m.lastAccrual
  }

  /** Since `m0` every unit of the lender's shares has been paid, is owed as a haircut, is
      still in the market, or was lost to rounding down. */
  predicate LenderConserved(m0: MarketState, h: History, l: Lender) {
    && SameTerms(m0, h.market)
    && At(h.ledger.paid, l) + Owed(h.market, l) == Owed(m0, l) + At(h.ledger.entitled, l)
    && At(h.ledger.entitled, l) + Normalized(h.market, l) <= Normalized(m0, l)
  }

  /** The same for the market as a whole. */
  predicate MarketConserved(m0: MarketState, h: History) {
    && SameTerms(m0, h.market)
    && h.ledger.totalPaid + h.market.haircutAccumulator + RemainingClaims(h.market)
       <= m0.haircutAccumulator + RemainingClaims(m0)
  }

  /** The normalized value of a balance never falls short of what its parts are worth. */
  lemma NormalizedSplits(balance: int, part: int, factor: int)
    ensures part * factor / WAD + (balance - part) * factor / WAD <= balance * factor / WAD
  {
    assert part * factor + (balance - part) * factor == balance * factor;
    DivSuperadditive(part * factor, (balance - part) * factor, WAD);
  }

  /** The ledger records an exit at its worth: part of it paid, the rest owed. */
  lemma RecordedExit(h: History, m': MarketState, e: Exit, k: Lender)
    requires Inv(h.market) && Matured(h.market) && ExitOk(h.market, e, k)
    requires Departs(e.start, m', k, e.scaled, e.normalized, e.payout)
    ensures var m, g, g' := h.market, h.ledger, RecordExit(h.ledger, h.market, m', k);
            var paid := m.vault - m'.vault;
            && SameTerms(m, m')
            && g'.paid == g.paid[k := At(g.paid, k) + paid]
            && g'.entitled == g.entitled[k := At(g.entitled, k) + e.normalized]
            && g'.totalPaid == g.totalPaid + paid
            && paid + m'.haircutAccumulator - m.haircutAccumulator == e.normalized
            && paid + Owed(m', k) - Owed(m, k) == e.normalized
            && m'.book == m.book[k := m'.book[k]]
            && m'.book[k].scaledBalance == m.book[k].scaledBalance - e.scaled
            && e.normalized == e.scaled * m.scaleFactor / WAD
            && m'.scaledSupply == m.scaledSupply - e.scaled
  {
  }

  lemma ExitConserves(h: History, m': MarketState, e: Exit, k: Lender, l: Lender)
    requires Inv(h.market) && Matured(h.market) && ExitOk(h.market, e, k)
    requires Departs(e.start, m', k, e.scaled, e.normalized, e.payout)
    ensures SameTerms(h.market, m')
    ensures var g, g' := h.ledger, RecordExit(h.ledger, h.market, m', k);
            && At(g'.paid, l) - At(g.paid, l) + Owed(m', l) - Owed(h.market, l)
               == At(g'.entitled, l) - At(g.entitled, l)
            && At(g'.entitled, l) - At(g.entitled, l) + Normalized(m', l) <= Normalized(h.market, l)
            && g'.totalPaid - g.totalPaid + m'.haircutAccumulator - h.market.haircutAccumulator
               + RemainingClaims(m') <= RemainingClaims(h.market)
  {
    RecordedExit(h, m', e, k);
    NormalizedSplits(h.market.scaledSupply, e.scaled, h.market.scaleFactor);
    NormalizedSplits(h.market.book[k].scaledBalance, e.scaled, h.market.scaleFactor);
  }

  lemma ClaimConserves(h: History, k: Lender, l: Lender)
    requires Inv(h.market) && 1 <= h.market.settlementFactor && PayClaim(h.market, k).Success?
    ensures var m, m' := h.market, PayClaim(h.market, k).value;
            var g, g' := h.ledger, Pay(h.ledger, k, m.vault - m'.vault);
            && SameTerms(m, m')
            && At(g'.paid, l) + Owed(m', l) == At(g.paid, l) + Owed(m, l)
            && Normalized(m', l) == Normalized(m, l)
            && g'.totalPaid + m'.haircutAccumulator == g.totalPaid + m.haircutAccumulator
            && RemainingClaims(m') == RemainingClaims(m)
  {
    PayClaimFacts(h.market, k);
  }

  /** A step conserves what is due if, for this lender and for the market, nothing is gained. */
  predicate Conserves(h: History, h': History, l: Lender) {
    && SameTerms(h.market, h'.market)
    && At(h'.ledger.paid, l) - At(h.ledger.paid, l) + Owed(h'.market, l) - Owed(h.market, l)
       == At(h'.ledger.entitled, l) - At(h.ledger.entitled, l)
    && At(h'.ledger.entitled, l) - At(h.ledger.entitled, l) + Normalized(h'.market, l) <= Normalized(h.market, l)
    && h'.ledger.totalPaid + h'.market.haircutAccumulator + RemainingClaims(h'.market)
       <= h.ledger.totalPaid + h.market.haircutAccumulator + RemainingClaims(h.market)
  }

  lemma RecoveryConserves(h: History, c: Call, l: Lender)
    requires Inv(h.market) && Matured(h.market) && Process(h.market, c).Success?
    requires !IsEntryOrInflow(c.ix) && !IsSweep(c.ix)
    ensures Conserves(h, Advance(h, c), l)
  {
    var m, h' := h.market, Advance(h, c);
    match c.ix
    case IxWithdraw(k, x, minPayout) =>
      var e := WithdrawIsExit(m, c.cfg, c.now, k, x, minPayout);
      ExitConserves(h, h'.market, e, k, l);
    case IxForceClose(k) =>
      var e := ForceCloseIsExit(m, c.cfg, c.now, k);
      ExitConserves(h, h'.market, e, k, l);
    case IxClaimHaircut(k) => ClaimConserves(h, k, l);
    case IxForceClaimHaircut(k) => ClaimConserves(h, k, l);
    case IxReSettle => ReSettleFacts(m, c.cfg, c.now);
    case IxClosePosition(k) =>
  }

  lemma AdvanceConserves(h: History, c: Call, l: Lender)
    requires Inv(h.market) && Matured(h.market)
    ensures Conserves(h, Advance(h, c), l)
  {
    if Process(h.market, c).Success? {
      if IsEntryOrInflow(c.ix) {
        EntryOrInflowFacts(h.market, c);
      } else if IsSweep(c.ix) {
        SweepFacts(h.market, c);
      } else {
        RecoveryConserves(h, c, l);
      }
    }
  }

  lemma {:induction false} TraceConserves(m0: MarketState, h: History, calls: seq<Call>, l: Lender)
    requires Inv(h.market) && Matured(h.market)
    requires LenderConserved(m0, h, l) && MarketConserved(m0, h)
    ensures LenderConserved(m0, Trace(h, calls), l) && MarketConserved(m0, Trace(h, calls))
    decreases |calls|
  {
    if |calls| == 0 {
    } else {
      AdvanceConserves(h, calls[0], l);
      if Process(h.market, calls[0]).Success? {
        ProcessKeepsInv(h.market, calls[0]);
      }
      TraceConserves(m0, Advance(h, calls[0]), calls[1..], l);
    }
  }

  /** However a lender splits its exits and claims, what it was paid and is still owed is what
      its exits were worth, and that is never more than its shares were worth at maturity. */
  lemma LenderConservation(m0: MarketState, calls: seq<Call>, l: Lender)
    requires Inv(m0) && Matured(m0)
    ensures var h := Trace(History(m0, NEW_LEDGER), calls);
            && At(h.ledger.paid, l) + Owed(h.market, l) == Owed(m0, l) + At(h.ledger.entitled, l)
            && At(h.ledger.entitled, l) + Normalized(h.market, l) <= Normalized(m0, l)
  {
    TraceConserves(m0, History(m0, NEW_LEDGER), calls, l);
  }

  /** All lenders together never receive more than they were owed at the start. */
  lemma MarketConservation(m0: MarketState, calls: seq<Call>)
    requires Inv(m0) && Matured(m0)
    ensures var h := Trace(History(m0, NEW_LEDGER), calls);
            h.ledger.totalPaid + h.market.haircutAccumulator + RemainingClaims(h.market)
            <= m0.haircutAccumulator + RemainingClaims(m0)
  {
    TraceConserves(m0, History(m0, NEW_LEDGER), calls, 0);
  }
}
