/** Solvency over whole runs, with the least allowance for rounding. */
module Solvency {
  import opened Outcomes
  import opened FixedPoint
  import opened Haircuts
  import opened Sums
  import opened Positions
  import opened Markets
  import opened Invariants
  import opened Histories

  /** With `k` more units the vault covers the lenders still in the market at the locked
      factor and everything the departed can claim at it. */
  ghost predicate SolventUpTo(m: MarketState, k: int) {
    RemainingClaims(m) * m.settlementFactor / WAD + SumOf(m.book, ClaimAt(m.settlementFactor)) <= m.vault + k
  }

  // ------------------------------------------------------------------
  // After a re-settlement: every haircut on its line
  // ------------------------------------------------------------------

  /** What the line of a haircut left behind factor `s` asks for at `s`, in units of 1/WAD. */
  function LineOf(p: Position, s: int): int {
    if p.haircutOwed == 0 || p.withdrawalSf == s then 0 else WeightOf(p) * s - WAD * OffsetOf(p)
  }

  function LineAt(s: int): Position -> int {
    (p: Position) => LineOf(p, s)
  }

  /** The vault backs the remaining lenders and every line but for `k` parts short of a unit. */
  ghost predicate Backed(m: MarketState, k: int) {
    RemainingClaims(m) * m.settlementFactor + SumOf(m.book, LineAt(m.settlementFactor)) <= WAD * m.vault + k * (WAD - 1)
  }

  lemma LineCoversClaim(p: Position, s: int)
    requires PositionOk(p, s) && 1 <= s <= WAD
    ensures Bounds(WAD, ClaimOf(p, s), LineOf(p, s))
    ensures 0 <= ClaimOf(p, s)
  {
    if 0 < p.haircutOwed {
      LineAboveClaim(p.haircutOwed, p.withdrawalSf, s);
      ClaimEndpoints(p.haircutOwed, p.withdrawalSf);
      ClaimsDoNotOverflow(p.haircutOwed, p.withdrawalSf, s);
    }
  }

  lemma BackedAlgebra(r: int, s: int, c: int, lines: int, v: int, k: int)
    requires 0 <= k && r * s + lines <= WAD * v + k * (WAD - 1) && WAD * c <= lines
    ensures r * s / WAD + c <= v + Max(0, k - 1)
  {
    assert k * (WAD - 1) == WAD * k - k;
    if k == 0 {
      DivAtMost(r * s, WAD, v - c);
    } else {
      DivAtMost(r * s, WAD, v + k - 1 - c);
    }
  }

  /** Parts short of a unit add up to one unit less than there are parts. */
  lemma BackedIsSolvent(m: MarketState, k: int)
    requires PositionsOk(m) && 1 <= m.settlementFactor <= WAD && 0 <= k && Backed(m, k)
    ensures SolventUpTo(m, Max(0, k - 1))
  {
    var s := m.settlementFactor;
    forall l | l in m.book
      ensures Bounds(WAD, ClaimAt(s)(m.book[l]), LineAt(s)(m.book[l]))
    {
      LineCoversClaim(m.book[l], s);
    }
    SumAtMost(m.book, WAD, ClaimAt(s), LineAt(s));
    BackedAlgebra(RemainingClaims(m), s, SumOf(m.book, ClaimAt(s)), SumOf(m.book, LineAt(s)), m.vault, k);
  }

  lemma WriteLines(book: Book, l: Lender, p: Position, s: int)
    ensures SumOf(book[l := p], LineAt(s)) == SumOf(book, LineAt(s)) - LineOf(PositionOf(book, l), s) + LineOf(p, s)
  {
    SumWrite(book, LineAt(s), l, p);
  }

  /** What re-anchoring a haircut recovers is on its line, but for less than a unit if it rounds. */
  lemma RecoveredOnLine(m: MarketState, l: Lender, normalized: int)
    requires PositionsOk(m) && l in m.book && 1 <= m.settlementFactor < WAD && 0 < normalized
    ensures var recovered := m.book[l].haircutOwed - Carried(m, l, normalized);
            WAD * recovered
            <= LineOf(m.book[l], m.settlementFactor) + if RebaseRounds(m, l, normalized) then WAD - 1 else 0
  {
    var p := m.book[l];
    if 0 < p.haircutOwed && p.withdrawalSf != m.settlementFactor {
      RebaseWithinLine(p.haircutOwed, p.withdrawalSf, m.settlementFactor);
      RebaseComplementsClaim(p.haircutOwed, p.withdrawalSf, m.settlementFactor);
      LineCoversClaim(p, m.settlementFactor);
    }
  }

  lemma BackedExitAlgebra(r: int, r': int, n: int, s: int, payout: int, recovered: int, line: int, lines: int,
                          v: int, part: int, slack: int)
    requires 0 <= s && r' + n <= r && WAD * payout <= n * s
    requires WAD * recovered <= line + part
    requires r * s + lines <= WAD * v + slack
    ensures r' * s + (lines - line) <= WAD * (v - payout - recovered) + slack + part
  {
    MulLe(r' + n, r, s);
    assert (r' + n) * s == r' * s + n * s;
  }

  /** An exit uses up at most one part, and only if its rebase rounds. */
  lemma ExitStaysBacked(m: MarketState, m': MarketState, l: Lender, scaled: int, normalized: int, payout: int, k: int)
    requires Inv(m) && m.settlementFactor < WAD && ExitAmounts(m, l, scaled, normalized, payout)
    requires Departs(m, m', l, scaled, normalized, payout)
    requires Backed(m, k)
    ensures Backed(m', k + if RebaseRounds(m, l, normalized) then 1 else 0)
  {
    ExitSplits(m, l, scaled, normalized, payout);
    if normalized > 0 {
      RecoveredOnLine(m, l, normalized);
    }
    BackedAfterExit(m, m', l, scaled, normalized, payout, k, if RebaseRounds(m, l, normalized) then 1 else 0);
  }

  lemma BackedAfterExit(m: MarketState, m': MarketState, l: Lender, scaled: int, normalized: int, payout: int,
                        k: int, part: int)
    requires l in m.book && Departs(m, m', l, scaled, normalized, payout) && 0 <= m.settlementFactor
    requires payout == normalized * m.settlementFactor / WAD && (payout == normalized ==> normalized == 0)
    requires 0 <= normalized && RemainingClaims(m') + normalized <= RemainingClaims(m)
    requires var recovered := m.book[l].haircutOwed - Carried(m, l, normalized);
             && (normalized == 0 ==> recovered == 0)
             && (0 < normalized ==> WAD * recovered <= LineOf(m.book[l], m.settlementFactor) + part * (WAD - 1))
    requires 0 <= part && Backed(m, k)
    ensures Backed(m', k + part)
  {
    var s := m.settlementFactor;
    WriteLines(m.book, l, m'.book[l], s);
    DivBounds(normalized * s, WAD);
    MulLe(0, part, WAD - 1);
    var line := if normalized == 0 then 0 else LineOf(m.book[l], s);
    var recovered := m.book[l].haircutOwed - Carried(m, l, normalized);
    BackedExitAlgebra(RemainingClaims(m), RemainingClaims(m'), normalized, s, payout, recovered,
                      line, SumOf(m.book, LineAt(s)), m.vault, part * (WAD - 1), k * (WAD - 1));
    assert (k + part) * (WAD - 1) == k * (WAD - 1) + part * (WAD - 1);
  }

  lemma ClaimAlgebra(line: int, lines: int, paid: int, claim: int, rs: int, v: int, slack: int)
    requires paid <= claim && Bounds(WAD, claim, line)
    requires rs + lines <= WAD * v + slack
    ensures rs + (lines - line) <= WAD * (v - paid) + slack
  {
  }

  lemma CloseStaysBacked(m: MarketState, cfg: Config, l: Lender, k: int)
    requires ClosePosition(m, cfg, l).Success? && Backed(m, k)
    ensures Backed(ClosePosition(m, cfg, l).value, k)
  {
    SumRemove(m.book, LineAt(m.settlementFactor), l);
  }

  lemma LineIsLinear(p: Position, t: int, w: int, o: int)
    requires p.haircutOwed != 0 ==> p.withdrawalSf != t
    ensures LineOf(p, t) + (t * w - WAD * o) == t * (WeightOf(p) + w) - WAD * (OffsetOf(p) + o)
  {
    if p.haircutOwed == 0 {
      assert 0 * p.withdrawalSf == 0;
    }
    assert t * (WeightOf(p) + w) == t * WeightOf(p) + t * w;
  }

  lemma {:induction false} LinesAreLinear(book: Book, t: int)
    requires forall l :: l in book && book[l].haircutOwed != 0 ==> book[l].withdrawalSf != t
    ensures SumOf(book, LineAt(t)) == t * SumOf(book, WeightOf) - WAD * SumOf(book, OffsetOf)
    decreases |book|
  {
    if |book| == 0 {
      assert t * 0 == 0;
    } else {
      var p, rest := book[Pick(book)], book - {Pick(book)};
      LinesAreLinear(rest, t);
      LineIsLinear(p, t, SumOf(rest, WeightOf), SumOf(rest, OffsetOf));
    }
  }

  lemma CarriedLines(r: int, s: int, w: int, o: int, v: int, lines: int)
    requires s * (r + w) <= WAD * (v + o) && lines == s * w - WAD * o
    ensures r * s + lines <= WAD * v
  {
    assert s * (r + w) == r * s + s * w;
  }

  lemma CarriedIsBacked(m: MarketState, s: int)
    requires PositionsOk(m) && Aggregates(m) && m.settlementFactor < s
    requires Carries(m.vault, RemainingClaims(m), m.weightSum, m.offsetSum, s)
    ensures RemainingClaims(m) * s + SumOf(m.book, LineAt(s)) <= WAD * m.vault
  {
    LinesAreLinear(m.book, s);
    CarriedLines(RemainingClaims(m), s, m.weightSum, m.offsetSum, m.vault, SumOf(m.book, LineAt(s)));
  }

  /** A re-settlement leaves nothing short. */
  lemma ReSettleBacks(m: MarketState, cfg: Config, now: int)
    requires Inv(m) && ReSettle(m, cfg, now).Success?
    ensures Backed(ReSettle(m, cfg, now).value, 0)
  {
    ReSettleFacts(m, cfg, now);
    CarriedIsBacked(m, ReSettle(m, cfg, now).value.settlementFactor);
  }

  // ------------------------------------------------------------------
  // Before the first re-settlement: every haircut at the locked factor
  // ------------------------------------------------------------------

  /** No haircut is anchored below the market's factor. */
  predicate NoneBehind(m: MarketState) {
    forall l :: l in m.book && m.book[l].haircutOwed != 0 ==> m.book[l].withdrawalSf == m.settlementFactor
  }

  predicate SharesCovered(m: MarketState, k: int) {
    RemainingClaims(m) * m.settlementFactor / WAD <= m.vault + k
  }

  lemma SharesCoveredIsSolvent(m: MarketState, k: int)
    requires NoneBehind(m) && SharesCovered(m, k)
    ensures SolventUpTo(m, k)
  {
    SumZero(m.book, ClaimAt(m.settlementFactor));
  }

  lemma SharesSplit(r: int, r': int, n: int, s: int)
    requires 0 <= s && r' + n <= r
    ensures r' * s / WAD + n * s / WAD <= r * s / WAD
  {
    MulLe(r' + n, r, s);
    assert (r' + n) * s == r' * s + n * s;
    DivSuperadditive(r' * s, n * s, WAD);
    DivMono(r' * s + n * s, r * s, WAD);
  }

  lemma ExitStaysCovered(m: MarketState, m': MarketState, l: Lender, scaled: int, normalized: int, payout: int, k: int)
    requires Inv(m) && m.settlementFactor < WAD && ExitAmounts(m, l, scaled, normalized, payout)
    requires Departs(m, m', l, scaled, normalized, payout)
    requires NoneBehind(m) && SharesCovered(m, k)
    ensures NoneBehind(m') && SharesCovered(m', k) && !Rebases(m, l, normalized)
  {
    ExitSplits(m, l, scaled, normalized, payout);
    SharesSplit(RemainingClaims(m), RemainingClaims(m'), normalized, m.settlementFactor);
  }

  lemma NothingToClaim(m: MarketState, l: Lender)
    requires NoneBehind(m)
    ensures PayClaim(m, l).Failure?
  {
  }

  // ------------------------------------------------------------------
  // Every run
  // ------------------------------------------------------------------

  /** How the ledger vouches for a distressed market: once re-settled by its lines, before that
      by the shares of the lenders still in it. */
  ghost predicate Vouched(h: History) {
    var m, g := h.market, h.ledger;
    && 0 <= g.lossyRebases && 0 <= g.clampShortfall
    && (m.settlementFactor == 0 ==> g.lossyRebases == 0 && g.clampShortfall == 0)
    && (0 < m.settlementFactor < WAD ==>
          || (g.clampShortfall == 0 && Backed(m, g.lossyRebases))
          || (g.lossyRebases == 0 && NoneBehind(m) && SharesCovered(m, g.clampShortfall)))
  }

  /** The allowance: all but one of the rebasing exits since the last re-settlement, and what
      the clamp promised if there was none. */
  function Allowance(g: Ledger): int {
    Max(0, g.lossyRebases - 1) + g.clampShortfall
  }

  lemma VouchedIsSolvent(h: History)
    requires Inv(h.market) && Vouched(h) && 1 <= h.market.settlementFactor
    ensures SolventUpTo(h.market, Allowance(h.ledger))
  {
    var m, g := h.market, h.ledger;
    if m.settlementFactor == WAD {
      ClaimsAtWadAreOwed(m);
      DivIs(RemainingClaims(m) * WAD, WAD, RemainingClaims(m));
    } else if Backed(m, g.lossyRebases) && g.clampShortfall == 0 {
      BackedIsSolvent(m, g.lossyRebases);
    } else {
      SharesCoveredIsSolvent(m, g.clampShortfall);
    }
  }

  lemma ExitStaysVouched(h: History, m': MarketState, e: Exit, l: Lender)
    requires Inv(h.market) && Vouched(h) && ExitOk(h.market, e, l)
    requires Departs(e.start, m', l, e.scaled, e.normalized, e.payout)
    ensures Vouched(History(m', RecordExit(h.ledger, h.market, m', l)))
  {
    var m, g, start := h.market, h.ledger, e.start;
    var g' := RecordExit(g, m, m', l);
    assert g'.lossyRebases == g.lossyRebases + if RebaseRounds(start, l, e.normalized) then 1 else 0;
    if start.settlementFactor == WAD {
    } else if m.settlementFactor == 0 {
      NoHaircutsBeforeSettlement(m);
      ExitStaysCovered(start, m', l, e.scaled, e.normalized, e.payout, g'.clampShortfall);
    } else if Backed(m, g.lossyRebases) && g.clampShortfall == 0 {
      ExitStaysBacked(start, m', l, e.scaled, e.normalized, e.payout, g.lossyRebases);
    } else {
      ExitStaysCovered(start, m', l, e.scaled, e.normalized, e.payout, g.clampShortfall);
    }
  }

  /** One haircut is paid no more than its claim and re-anchored at the market's factor. */
  predicate PaidFromLine(m: MarketState, m': MarketState, l: Lender) {
    && l in m.book && PositionRewritten(m, m', l)
    && m'.book[l].scaledBalance == m.book[l].scaledBalance
    && m.vault - m'.vault <= ClaimOf(m.book[l], m.settlementFactor)
    && (m'.book[l].haircutOwed == 0 || m'.book[l].withdrawalSf == m.settlementFactor)
  }

  /** A claim, capped or not, spends only what its line reserved. */
  lemma ClaimStaysBacked(m: MarketState, m': MarketState, l: Lender, k: int)
    requires PositionsOk(m) && 1 <= m.settlementFactor <= WAD && PaidFromLine(m, m', l) && Backed(m, k)
    ensures Backed(m', k)
  {
    var s, p, r := m.settlementFactor, m.book[l], RemainingClaims(m);
    var rs, line, lines := r * s, LineOf(p, s), SumOf(m.book, LineAt(s));
    LineCoversClaim(p, s);
    WriteLines(m.book, l, m'.book[l], s);
    assert LineOf(m'.book[l], s) == 0 && RemainingClaims(m') == r;
    assert SumOf(m'.book, LineAt(s)) == lines - line;
    ClaimAlgebra(line, lines, m.vault - m'.vault, ClaimOf(p, s), rs, m.vault, k * (WAD - 1));
  }

  lemma ClaimStaysVouched(h: History, l: Lender)
    requires Inv(h.market) && Vouched(h) && 1 <= h.market.settlementFactor && PayClaim(h.market, l).Success?
    ensures var m' := PayClaim(h.market, l).value;
            Vouched(History(m', Pay(h.ledger, l, h.market.vault - m'.vault)))
  {
    var m := h.market;
    PayClaimFacts(m, l);
    if m.settlementFactor == WAD {
    } else if Backed(m, h.ledger.lossyRebases) && h.ledger.clampShortfall == 0 {
      ClaimStaysBacked(m, PayClaim(m, l).value, l, h.ledger.lossyRebases);
    } else {
      NothingToClaim(m, l);
    }
  }

  lemma RecoveryStaysVouched(h: History, c: Call)
    requires Inv(h.market) && Vouched(h) && Process(h.market, c).Success?
    requires !IsEntryOrInflow(c.ix) && !IsSweep(c.ix)
    ensures Vouched(Advance(h, c))
  {
    var m, m' := h.market, Advance(h, c).market;
    match c.ix
    case IxWithdraw(l, x, minPayout) =>
      var e := WithdrawIsExit(m, c.cfg, c.now, l, x, minPayout);
      ExitStaysVouched(h, m', e, l);
    case IxForceClose(l) =>
      var e := ForceCloseIsExit(m, c.cfg, c.now, l);
      ExitStaysVouched(h, m', e, l);
    case IxClaimHaircut(l) => ClaimStaysVouched(h, l);
    case IxForceClaimHaircut(l) => ClaimStaysVouched(h, l);
    case IxReSettle =>
      ReSettleFacts(m, c.cfg, c.now);
      ReSettleBacks(m, c.cfg, c.now);
    case IxClosePosition(l) =>
      if Backed(m, h.ledger.lossyRebases) {
        CloseStaysBacked(m, c.cfg, l, h.ledger.lossyRebases);
      }
  }

  lemma AdvanceStaysVouched(h: History, c: Call)
    requires Inv(h.market) && Vouched(h)
    ensures Inv(Advance(h, c).market) && Vouched(Advance(h, c))
  {
    if Process(h.market, c).Success? {
      ProcessKeepsInv(h.market, c);
      if IsEntryOrInflow(c.ix) {
        EntryOrInflowFacts(h.market, c);
      } else if IsSweep(c.ix) {
        SweepFacts(h.market, c);
      } else {
        RecoveryStaysVouched(h, c);
      }
    }
  }

  /** Whatever is called in whatever order, the ledger keeps vouching for the market. */
  lemma {:induction false} EveryRunStaysVouched(h: History, calls: seq<Call>)
    requires Inv(h.market) && Vouched(h)
    ensures Inv(Trace(h, calls).market) && Vouched(Trace(h, calls))
    decreases |calls|
  {
    if |calls| == 0 {
    } else {
      AdvanceStaysVouched(h, calls[0]);
      EveryRunStaysVouched(Advance(h, calls[0]), calls[1..]);
    }
  }

  // ------------------------------------------------------------------
  // What the allowance means for exits and claims
  // ------------------------------------------------------------------

  lemma LinesNonNegative(m: MarketState, l: Lender)
    requires PositionsOk(m) && 1 <= m.settlementFactor <= WAD && l in m.book
    ensures LineOf(m.book[l], m.settlementFactor) <= SumOf(m.book, LineAt(m.settlementFactor))
  {
    var f := LineAt(m.settlementFactor);
    forall k | k in m.book
      ensures 0 <= f(m.book[k])
    {
      LineCoversClaim(m.book[k], m.settlementFactor);
    }
    SumAtLeast(m.book, f, l);
  }

  lemma ExitFromLines(r: int, n: int, s: int, payout: int, recovered: int, line: int, lines: int, part: int, v: int,
                      k: int)
    requires 0 <= s && n <= r && WAD * payout <= n * s && line <= lines && part <= WAD - 1
    requires WAD * recovered <= line + part
    requires r * s + lines <= WAD * v + k * (WAD - 1) && 0 <= k
    ensures payout + recovered <= v + k
  {
    MulLe(n, r, s);
    assert k * (WAD - 1) == k * WAD - k;
    assert WAD * (payout + recovered) < WAD * (v + k + 1);
    MulCancelLt(payout + recovered, v + k + 1, WAD);
  }

  lemma BackedExitIsCovered(m: MarketState, l: Lender, scaled: int, normalized: int, payout: int, k: int)
    requires Inv(m) && m.settlementFactor < WAD && ExitAmounts(m, l, scaled, normalized, payout)
    requires 0 <= k && Backed(m, k)
    ensures payout + m.book[l].haircutOwed - Carried(m, l, normalized) <= m.vault + k
  {
    ExitSplits(m, l, scaled, normalized, payout);
    if 0 < normalized {
      var s := m.settlementFactor;
      RecoveredOnLine(m, l, normalized);
      LinesNonNegative(m, l);
      DivBounds(normalized * s, WAD);
      var part := if RebaseRounds(m, l, normalized) then WAD - 1 else 0;
      ExitFromLines(RemainingClaims(m), normalized, s, payout, m.book[l].haircutOwed - Carried(m, l, normalized),
                    LineOf(m.book[l], s), SumOf(m.book, LineAt(s)), part, m.vault, k);
    }
  }

  lemma FirstExitsAreCovered(m: MarketState, l: Lender, scaled: int, normalized: int, payout: int, k: int)
    requires Inv(m) && ExitAmounts(m, l, scaled, normalized, payout)
    requires NoneBehind(m) && SharesCovered(m, k)
    ensures payout + m.book[l].haircutOwed - Carried(m, l, normalized) <= m.vault + k
  {
    ExitSplits(m, l, scaled, normalized, payout);
    var r' := (m.scaledSupply - scaled) * m.scaleFactor / WAD;
    SharesSplit(RemainingClaims(m), r', normalized, m.settlementFactor);
    MulLe(0, r', m.settlementFactor);
    DivNonNegative(r' * m.settlementFactor, WAD);
  }

  /** An exit, with what it recovers by re-anchoring, asks for at most one unit beyond the vault for
      each rebasing exit before it, and for what the clamp promised. */
  lemma ExitWithinAllowance(h: History, l: Lender, scaled: int, normalized: int, payout: int)
    requires Inv(h.market) && Vouched(h) && ExitAmounts(h.market, l, scaled, normalized, payout)
    ensures payout + h.market.book[l].haircutOwed - Carried(h.market, l, normalized)
         <= h.market.vault + h.ledger.lossyRebases + h.ledger.clampShortfall
  {
    var m, g := h.market, h.ledger;
    if m.settlementFactor == WAD {
      ExitSplits(m, l, scaled, normalized, payout);
      ShareOfAggregates(m, l);
    } else if Backed(m, g.lossyRebases) && g.clampShortfall == 0 {
      BackedExitIsCovered(m, l, scaled, normalized, payout, g.lossyRebases);
    } else {
      FirstExitsAreCovered(m, l, scaled, normalized, payout, g.clampShortfall);
    }
  }

  lemma LeaveAsks(m: MarketState, l: Lender, scaled: int, normalized: int, payout: int)
    requires Inv(m) && ExitAmounts(m, l, scaled, normalized, payout)
    requires payout + m.book[l].haircutOwed - Carried(m, l, normalized) <= m.vault
    ensures Leave(m, l, scaled, normalized, payout) != Failure(TransferFailed)
  {
    ExitSplits(m, l, scaled, normalized, payout);
    if RecordGap(m, l, normalized, payout).Success? {
      if m.settlementFactor == WAD || normalized == 0 {
        NoGapNoChange(m, l, normalized, payout);
      } else {
        RecordedPosition(m, l, normalized, payout);
      }
    }
  }

  /** No exit fails for want of tokens, rebasing or not, while no rebase and no clamp is outstanding. */
  lemma EveryExitIsCovered(h: History, l: Lender, scaled: int, normalized: int, payout: int)
    requires Inv(h.market) && Vouched(h) && h.ledger.lossyRebases == 0 && h.ledger.clampShortfall == 0
    requires ExitAmounts(h.market, l, scaled, normalized, payout)
    ensures Leave(h.market, l, scaled, normalized, payout) != Failure(TransferFailed)
    ensures Leave(h.market, l, scaled, normalized, payout).Success? ==>
              h.market.vault - Leave(h.market, l, scaled, normalized, payout).value.vault
              == payout + h.market.book[l].haircutOwed - Carried(h.market, l, normalized)
  {
    ExitWithinAllowance(h, l, scaled, normalized, payout);
    LeaveAsks(h.market, l, scaled, normalized, payout);
    if Leave(h.market, l, scaled, normalized, payout).Success? {
      LeavePays(h.market, l, scaled, normalized, payout);
    }
  }

  lemma ShareNeverShort(h: History, l: Lender, scaledAmount: u128, minPayout: u64)
    requires Inv(h.market) && Vouched(h) && h.ledger.lossyRebases == 0 && h.ledger.clampShortfall == 0
    requires 1 <= h.market.settlementFactor && l in h.market.book
    ensures WithdrawShare(h.market, l, scaledAmount, minPayout) != Failure(TransferFailed)
  {
    var m := h.market;
    var e := ExitFrom(m, l, if scaledAmount == 0 then m.book[l].scaledBalance else scaledAmount);
    ShareOfAggregates(m, l);
    if e.scaled <= m.book[l].scaledBalance {
      EveryExitIsCovered(h, l, e.scaled, e.normalized, e.payout);
    }
  }

  lemma CloseOutNeverShort(h: History, l: Lender)
    requires Inv(h.market) && Vouched(h) && h.ledger.lossyRebases == 0 && h.ledger.clampShortfall == 0
    requires 1 <= h.market.settlementFactor
    ensures CloseOut(h.market, l) != Failure(TransferFailed)
  {
    var m := h.market;
    if l in m.book {
      var e := ExitFrom(m, l, m.book[l].scaledBalance);
      ShareOfAggregates(m, l);
      EveryExitIsCovered(h, l, e.scaled, e.normalized, e.payout);
    }
  }

  lemma SettledMarketDoesNotAccrue(m: MarketState, cfg: Config, now: int)
    requires Inv(m) && 1 <= m.settlementFactor && m.maturity <= now
    ensures Accrue(m, cfg, now) == Success(m) && Settle(m) == Success(m)
  {
  }

  /** While no rebase and no clamp is outstanding, no withdrawal and no force-close of a settled
      market fails for want of tokens, whoever leaves and whatever is re-anchored. */
  lemma NoSettledExitRunsShort(h: History, cfg: Config, now: int, l: Lender, scaledAmount: u128, minPayout: u64)
    requires Inv(h.market) && Vouched(h) && h.ledger.lossyRebases == 0 && h.ledger.clampShortfall == 0
    requires 1 <= h.market.settlementFactor
    ensures Withdraw(h.market, cfg, now, l, scaledAmount, minPayout) != Failure(TransferFailed)
    ensures ForceClose(h.market, cfg, now, l) != Failure(TransferFailed)
  {
    if h.market.maturity <= now {
      SettledMarketDoesNotAccrue(h.market, cfg, now);
      CloseOutNeverShort(h, l);
      if l in h.market.book {
        ShareNeverShort(h, l, scaledAmount, minPayout);
      }
    }
  }

  lemma ClaimsNonNegative(m: MarketState, l: Lender)
    requires PositionsOk(m) && 1 <= m.settlementFactor <= WAD
    ensures 0 <= ClaimOf(PositionOf(m.book, l), m.settlementFactor) <= SumOf(m.book, ClaimAt(m.settlementFactor))
  {
    var f := ClaimAt(m.settlementFactor);
    forall k | k in m.book
      ensures 0 <= f(m.book[k])
    {
      LineCoversClaim(m.book[k], m.settlementFactor);
    }
    SumAtLeast(m.book, f, l);
  }

  /** Where everyone is covered the surplus cap never binds: a claim pays its exact amount. */
  lemma PlainClaimIsUncapped(m: MarketState, l: Lender)
    requires Inv(m) && SolventUpTo(m, 0) && 1 <= m.settlementFactor && PayClaim(m, l).Success?
    ensures m.vault - PayClaim(m, l).value.vault == ClaimOf(m.book[l], m.settlementFactor)
  {
    PayClaimFacts(m, l);
    ClaimsNonNegative(m, l);
  }

  lemma ExactRecovery(m: MarketState, l: Lender, normalized: int)
    requires PositionsOk(m) && 1 <= m.settlementFactor <= WAD && l in m.book && !RebaseRounds(m, l, normalized)
    ensures var recovered := m.book[l].haircutOwed - Carried(m, l, normalized);
            && recovered <= ClaimOf(m.book[l], m.settlementFactor)
            && (!Rebases(m, l, normalized) ==> recovered == 0)
  {
    var p := m.book[l];
    LineCoversClaim(p, m.settlementFactor);
    if Rebases(m, l, normalized) {
      RebaseComplementsClaim(p.haircutOwed, p.withdrawalSf, m.settlementFactor);
    }
  }

  /** Where everyone is covered, an exit whose rebase does not round is paid its share and what it
      recovers. */
  lemma PlainExitIsCovered(m: MarketState, l: Lender, scaled: int, normalized: int, payout: int)
    requires Inv(m) && SolventUpTo(m, 0)
    requires ExitAmounts(m, l, scaled, normalized, payout) && !RebaseRounds(m, l, normalized)
    ensures Leave(m, l, scaled, normalized, payout) != Failure(TransferFailed)
    ensures Leave(m, l, scaled, normalized, payout).Success? ==>
              var drop := m.vault - Leave(m, l, scaled, normalized, payout).value.vault;
              && drop == payout + m.book[l].haircutOwed - Carried(m, l, normalized)
              && (!Rebases(m, l, normalized) ==> drop == payout)
  {
    ExitSplits(m, l, scaled, normalized, payout);
    ClaimsNonNegative(m, l);
    var r' := (m.scaledSupply - scaled) * m.scaleFactor / WAD;
    SharesSplit(RemainingClaims(m), r', normalized, m.settlementFactor);
    MulLe(0, r', m.settlementFactor);
    DivNonNegative(r' * m.settlementFactor, WAD);
    assert payout + ClaimOf(m.book[l], m.settlementFactor) <= m.vault;
    ExactRecovery(m, l, normalized);
    LeaveAsks(m, l, scaled, normalized, payout);
    if Leave(m, l, scaled, normalized, payout).Success? {
      LeavePays(m, l, scaled, normalized, payout);
    }
  }

  /** One rounding rebase since the last re-settlement leaves nobody short: the vault covers everyone,
      every claim is exact and every exit that does not round is paid. */
  lemma OneRebaseLeavesNobodyShort(h: History, l: Lender, scaled: int, normalized: int, payout: int)
    requires Inv(h.market) && Vouched(h) && h.ledger.lossyRebases <= 1 && h.ledger.clampShortfall == 0
    requires 1 <= h.market.settlementFactor
    ensures SolventUpTo(h.market, 0)
    ensures PayClaim(h.market, l).Success? ==>
              h.market.vault - PayClaim(h.market, l).value.vault == ClaimOf(h.market.book[l], h.market.settlementFactor)
    ensures ExitAmounts(h.market, l, scaled, normalized, payout) && !RebaseRounds(h.market, l, normalized) ==>
              Leave(h.market, l, scaled, normalized, payout) != Failure(TransferFailed)
  {
    VouchedIsSolvent(h);
    if PayClaim(h.market, l).Success? {
      PlainClaimIsUncapped(h.market, l);
    }
    if ExitAmounts(h.market, l, scaled, normalized, payout) && !RebaseRounds(h.market, l, normalized) {
      PlainExitIsCovered(h.market, l, scaled, normalized, payout);
    }
  }

  // ------------------------------------------------------------------
  // Markets from their creation
  // ------------------------------------------------------------------

  lemma NewMarketIsVouched(m: MarketState, cfg: Config, wl: Whitelist, annualBps: nat, maturity: int, cap: u64,
                           now: int)
    requires CreateMarket(cfg, wl, annualBps, maturity, cap, now) == Success(m)
    ensures Inv(m) && Vouched(History(m, NEW_LEDGER))
  {
    CreateKeepsInv(cfg, wl, annualBps, maturity, cap, now);
  }

  /** A market the ledger vouches for is solvent with the ledger's allowance. */
  ghost predicate SolventByLedger(h: History) {
    && Inv(h.market) && Vouched(h)
    && (0 < h.market.settlementFactor ==>
          SolventUpTo(h.market, Max(0, h.ledger.lossyRebases - 1) + h.ledger.clampShortfall))
  }

  /** Whatever the ledger vouches for at the start, after any run the vault covers everyone with
      one unit for all but one of the rounding rebases since the last re-settlement, and the
      clamp's shortfall if there was none. */
  lemma RunsAreSolvent(h: History, calls: seq<Call>)
    requires Inv(h.market) && Vouched(h)
    ensures SolventByLedger(Trace(h, calls)) && Trace(h, calls).market == Run(h.market, calls)
  {
    TraceIsRun(h, calls);
    EveryRunStaysVouched(h, calls);
    if 0 < Trace(h, calls).market.settlementFactor {
      VouchedIsSolvent(Trace(h, calls));
    }
  }

  /** The same for every market the program can create, after any calls at all; a single rebase
      that rounds leaves nobody short. */
  lemma ReachableMarketsAreSolvent(created: MarketState, cfg: Config, wl: Whitelist, annualBps: nat, maturity: int,
                                   cap: u64, now: int, calls: seq<Call>)
    requires CreateMarket(cfg, wl, annualBps, maturity, cap, now) == Success(created)
    ensures SolventByLedger(Trace(History(created, NEW_LEDGER), calls))
    ensures Trace(History(created, NEW_LEDGER), calls).market == Run(created, calls)
  {
    NewMarketIsVouched(created, cfg, wl, annualBps, maturity, cap, now);
    RunsAreSolvent(History(created, NEW_LEDGER), calls);
  }
}
