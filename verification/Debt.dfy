/** A borrower's debt across all of its markets. */
module Debt {
  import opened Outcomes
  import opened FixedPoint
  import opened Sums
  import opened Positions
  import opened Markets
  import opened Invariants

  type MarketId = nat

  /** All markets of one borrower and its whitelist entry. */
  datatype Portfolio = Portfolio(markets: map<MarketId, MarketState>, wl: Whitelist)

  datatype Operation =
    | Create(id: MarketId, annualBps: nat, maturity: int, maxTotalSupply: u64)
    | On(id: MarketId, ix: Instruction)
    | SetWhitelist(whitelisted: bool, maxBorrowCapacity: u64)

  /** Updates an existing whitelist entry; a borrower in debt cannot be removed. */
  function UpdateWhitelist(wl: Whitelist, whitelisted: bool, maxBorrowCapacity: u64): Result<Whitelist> {
    if whitelisted && maxBorrowCapacity == 0 then Failure(InvalidCapacity)
    else if !whitelisted && 0 < wl.currentBorrowed then Failure(BorrowerHasActiveDebt)
    else Success(wl.(whitelisted := whitelisted, maxBorrowCapacity := maxBorrowCapacity))
  }

  function Operate(p: Portfolio, cfg: Config, now: int, op: Operation): Result<Portfolio> {
    match op
    case Create(id, annualBps, maturity, cap) =>
      var m :- CreateMarket(cfg, p.wl, annualBps, maturity, cap, now);
      if id in p.markets then Failure(MarketAlreadyExists)
      else Success(p.(markets := p.markets[id := m]))
    case On(id, ix) =>
      if id !in p.markets then Failure(AccountMissing)
      else
        var after :- Process(p.markets[id], Call(cfg, now, p.wl, ix));
        Success(Portfolio(p.markets[id := after.0], after.1))
    case SetWhitelist(flag, capacity) =>
      var wl :- UpdateWhitelist(p.wl, flag, capacity);
      Success(p.(wl := wl))
  }

  datatype Event = Event(cfg: Config, now: int, op: Operation)

  function OperateAll(p: Portfolio, events: seq<Event>): Portfolio
    decreases |events|
  {
    if |events| == 0 then p
    else
      var e := events[0];
      var p' := match Operate(p, e.cfg, e.now, e.op) case Success(q) => q case Failure(_) => p;
      OperateAll(p', events[1..])
  }

  /** Every market is sound and the whitelist entry is the sum of what is outstanding. */
  ghost predicate DebtAgrees(p: Portfolio) {
    && (forall id :: id in p.markets ==> Inv(p.markets[id]))
    && p.wl.currentBorrowed == SumOf(p.markets, Outstanding)
    && p.wl.currentBorrowed <= U64_MAX
  }

  // ------------------------------------------------------------------
  // How each instruction moves debt
  // ------------------------------------------------------------------

  predicate SameDebt(m: MarketState, m': MarketState) {
    && m'.totalBorrowed == m.totalBorrowed
    && m'.totalRepaid == m.totalRepaid
    && m'.totalInterestRepaid == m.totalInterestRepaid
  }

  lemma AccrueMovesNoDebt(m: MarketState, cfg: Config, now: int)
    requires Accrue(m, cfg, now).Success?
    ensures SameDebt(m, Accrue(m, cfg, now).value)
  {
  }

  lemma LeaveMovesNoDebt(m: MarketState, l: Lender, scaled: int, normalized: int, payout: int)
    requires Leave(m, l, scaled, normalized, payout).Success?
    ensures SameDebt(m, Leave(m, l, scaled, normalized, payout).value)
  {
  }

  lemma WithdrawMovesNoDebt(m: MarketState, cfg: Config, now: int, l: Lender, x: u128, minPayout: u64)
    requires Withdraw(m, cfg, now, l, x, minPayout).Success?
    ensures SameDebt(m, Withdraw(m, cfg, now, l, x, minPayout).value)
  {
    WithdrawUnfolds(m, cfg, now, l, x, minPayout);
    AccrueMovesNoDebt(m, cfg, now);
    var s := Settle(Accrue(m, cfg, now).value).value;
    var e := ExitFrom(s, l, if x == 0 then s.book[l].scaledBalance else x);
    WithdrawShareUnfolds(s, l, x, minPayout);
    LeaveMovesNoDebt(s, l, e.scaled, e.normalized, e.payout);
  }

  lemma ForceCloseMovesNoDebt(m: MarketState, cfg: Config, now: int, l: Lender)
    requires ForceClose(m, cfg, now, l).Success?
    ensures SameDebt(m, ForceClose(m, cfg, now, l).value)
  {
    ForceCloseUnfolds(m, cfg, now, l);
    AccrueMovesNoDebt(m, cfg, now);
    var s := Settle(Accrue(m, cfg, now).value).value;
    var e := ExitFrom(s, l, s.book[l].scaledBalance);
    LeaveMovesNoDebt(s, l, e.scaled, e.normalized, e.payout);
  }

  lemma PayClaimMovesNoDebt(m: MarketState, l: Lender)
    requires PayClaim(m, l).Success?
    ensures SameDebt(m, PayClaim(m, l).value)
  {
  }

  /** Calls that reach the debt counters, if at all, right after the accrual. */
  lemma LoanMovesDebt(m: MarketState, c: Call)
    requires Process(m, c).Success? && (c.ix.IxBorrow? || c.ix.IxRepay? || c.ix.IxRepayInterest?)
    ensures var (m', wl') := Process(m, c).value;
            && Outstanding(m') - Outstanding(m) == wl'.currentBorrowed - c.wl.currentBorrowed
            && (c.ix.IxBorrow? ==> Outstanding(m') == Outstanding(m) + c.ix.amount)
            && (c.ix.IxRepay? ==> Outstanding(m') == Outstanding(m) - c.ix.amount)
            && (c.ix.IxRepayInterest? ==> Outstanding(m') == Outstanding(m))
  {
    AccrueMovesNoDebt(m, c.cfg, c.now);
  }

  lemma OthersMoveNoDebt(m: MarketState, c: Call)
    requires Process(m, c).Success? && !c.ix.IxBorrow? && !c.ix.IxRepay? && !c.ix.IxRepayInterest?
    ensures SameDebt(m, Process(m, c).value.0) && Process(m, c).value.1 == c.wl
  {
    match c.ix
    case IxWithdraw(l, x, minPayout) => WithdrawMovesNoDebt(m, c.cfg, c.now, l, x, minPayout);
    case IxForceClose(l) => ForceCloseMovesNoDebt(m, c.cfg, c.now, l);
    case IxClaimHaircut(l) => PayClaimMovesNoDebt(m, l);
    case IxForceClaimHaircut(l) => PayClaimMovesNoDebt(m, l);
    case _ =>
      if Accrue(m, c.cfg, c.now).Success? {
        AccrueMovesNoDebt(m, c.cfg, c.now);
      }
  }

  /** An instruction moves the market's outstanding principal exactly as it moves the
      borrower's global debt; interest payments move neither. */
  lemma DebtMovesTogether(m: MarketState, c: Call)
    requires Process(m, c).Success?
    ensures var (m', wl') := Process(m, c).value;
            && Outstanding(m') - Outstanding(m) == wl'.currentBorrowed - c.wl.currentBorrowed
            && (c.ix.IxBorrow? ==> Outstanding(m') == Outstanding(m) + c.ix.amount)
            && (c.ix.IxRepay? ==> Outstanding(m') == Outstanding(m) - c.ix.amount)
            && (!c.ix.IxBorrow? && !c.ix.IxRepay? ==> Outstanding(m') == Outstanding(m))
  {
    if c.ix.IxBorrow? || c.ix.IxRepay? || c.ix.IxRepayInterest? {
      LoanMovesDebt(m, c);
    } else {
      OthersMoveNoDebt(m, c);
    }
  }

  lemma DebtStaysInRange(m: MarketState, c: Call)
    requires Process(m, c).Success? && c.wl.currentBorrowed <= U64_MAX
    ensures Process(m, c).value.1.currentBorrowed <= U64_MAX
  {
    if !c.ix.IxBorrow? && !c.ix.IxRepay? {
      assert Process(m, c).value.1 == c.wl;
    }
  }

  lemma CallKeepsDebt(p: Portfolio, id: MarketId, c: Call)
    requires DebtAgrees(p) && id in p.markets && c.wl == p.wl && Process(p.markets[id], c).Success?
    ensures var after := Process(p.markets[id], c).value;
            DebtAgrees(Portfolio(p.markets[id := after.0], after.1))
  {
    ProcessKeepsInv(p.markets[id], c);
    DebtMovesTogether(p.markets[id], c);
    DebtStaysInRange(p.markets[id], c);
    SumUpdate(p.markets, Outstanding, id, Process(p.markets[id], c).value.0);
  }

  lemma CreateKeepsDebt(p: Portfolio, id: MarketId, cfg: Config, annualBps: nat, maturity: int, cap: u64, now: int)
    requires DebtAgrees(p) && id !in p.markets && CreateMarket(cfg, p.wl, annualBps, maturity, cap, now).Success?
    ensures DebtAgrees(p.(markets := p.markets[id := CreateMarket(cfg, p.wl, annualBps, maturity, cap, now).value]))
  {
    var m := CreateMarket(cfg, p.wl, annualBps, maturity, cap, now).value;
    CreateKeepsInv(cfg, p.wl, annualBps, maturity, cap, now);
    SumUpdate(p.markets, Outstanding, id, m);
    assert Outstanding(m) == 0;
  }

  lemma OperateKeepsDebt(p: Portfolio, cfg: Config, now: int, op: Operation)
    requires DebtAgrees(p) && Operate(p, cfg, now, op).Success?
    ensures DebtAgrees(Operate(p, cfg, now, op).value)
  {
    match op
    case Create(id, annualBps, maturity, cap) => CreateKeepsDebt(p, id, cfg, annualBps, maturity, cap, now);
    case On(id, ix) => CallKeepsDebt(p, id, Call(cfg, now, p.wl, ix));
    case SetWhitelist(flag, capacity) =>
  }

  /** Over any operations on any number of markets, the borrower's recorded debt is the sum
      of the principal outstanding on each. */
  lemma {:induction false} CrossMarketDebtConservation(p: Portfolio, events: seq<Event>)
    requires DebtAgrees(p)
    ensures DebtAgrees(OperateAll(p, events))
    decreases |events|
  {
    if |events| == 0 {
    } else {
      var e := events[0];
      if Operate(p, e.cfg, e.now, e.op).Success? {
        OperateKeepsDebt(p, e.cfg, e.now, e.op);
      }
      var p' := match Operate(p, e.cfg, e.now, e.op) case Success(q) => q case Failure(_) => p;
      CrossMarketDebtConservation(p', events[1..]);
    }
  }

  // ------------------------------------------------------------------
  // The borrower's capacity
  // ------------------------------------------------------------------

  /** The greatest capacity the borrower had along the way. */
  function PeakCapacity(p: Portfolio, events: seq<Event>): int
    decreases |events|
  {
    if |events| == 0 then p.wl.maxBorrowCapacity
    else
      var e := events[0];
      var p' := match Operate(p, e.cfg, e.now, e.op) case Success(q) => q case Failure(_) => p;
      Max(p.wl.maxBorrowCapacity, PeakCapacity(p', events[1..]))
  }

  /** Debt above the capacity never grows. */
  lemma NoLoanBeyondCapacity(p: Portfolio, cfg: Config, now: int, op: Operation)
    requires Operate(p, cfg, now, op).Success?
    ensures var wl' := Operate(p, cfg, now, op).value.wl;
            wl'.maxBorrowCapacity < wl'.currentBorrowed ==> wl'.currentBorrowed <= p.wl.currentBorrowed
  {
    match op
    case Create(id, annualBps, maturity, cap) =>
    case SetWhitelist(flag, capacity) =>
    case On(id, ix) => CallWithinCapacity(p.markets[id], Call(cfg, now, p.wl, ix));
  }

  lemma CallWithinCapacity(m: MarketState, c: Call)
    requires Process(m, c).Success?
    ensures var wl' := Process(m, c).value.1;
            wl'.maxBorrowCapacity < wl'.currentBorrowed ==> wl'.currentBorrowed <= c.wl.currentBorrowed
  {
    if !c.ix.IxBorrow? && !c.ix.IxRepay? {
      assert Process(m, c).value.1 == c.wl;
    }
  }

  /** Over any operations the borrower's debt stays within what it started with and the greatest
      capacity it was given. */
  lemma {:induction false} DebtWithinCapacity(p: Portfolio, events: seq<Event>)
    ensures OperateAll(p, events).wl.currentBorrowed <= Max(p.wl.currentBorrowed, PeakCapacity(p, events))
    decreases |events|
  {
    if |events| == 0 {
    } else {
      var e := events[0];
      if Operate(p, e.cfg, e.now, e.op).Success? {
        NoLoanBeyondCapacity(p, e.cfg, e.now, e.op);
      }
      var p' := match Operate(p, e.cfg, e.now, e.op) case Success(q) => q case Failure(_) => p;
      DebtWithinCapacity(p', events[1..]);
      PeakIsLast(p', events[1..]);
    }
  }

  lemma PeakIsLast(p: Portfolio, events: seq<Event>)
    ensures p.wl.maxBorrowCapacity <= PeakCapacity(p, events)
  {
  }

  /** A new borrower has no debt. */
  lemma NewPortfolioAgrees(wl: Whitelist)
    requires wl.currentBorrowed == 0
    ensures DebtAgrees(Portfolio(map[], wl))
  {
  }

  lemma OutstandingWithinDebt(p: Portfolio, id: MarketId)
    requires DebtAgrees(p) && id in p.markets
    ensures DebtOk(p.markets[id]) && Outstanding(p.markets[id]) <= p.wl.currentBorrowed
  {
    forall k | k in p.markets
      ensures 0 <= Outstanding(p.markets[k])
    {
      assert Inv(p.markets[k]);
    }
    SumAtLeast(p.markets, Outstanding, id);
  }

  /** Repayment is decided by the market alone: neither subtraction underflows, and the global
      check never rejects what the per-market check allows. */
  lemma GlobalCheckIsRedundant(p: Portfolio, id: MarketId, cfg: Config, now: int, amount: u64)
    requires DebtAgrees(p) && id in p.markets
    requires 0 < amount && !cfg.paused && Accrue(p.markets[id], cfg, now).Success?
    ensures var m := p.markets[id];
            && SubChecked(m.totalRepaid, m.totalInterestRepaid).Success?
            && SubChecked(m.totalBorrowed, m.totalRepaid - m.totalInterestRepaid) == Success(Outstanding(m))
            && Outstanding(m) <= p.wl.currentBorrowed
            && (Repay(m, p.wl, cfg, now, amount) == Failure(RepaymentExceedsDebt) <==> Outstanding(m) < amount)
            && (Repay(m, p.wl, cfg, now, amount).Success? <==>
                  amount <= Outstanding(m) && m.totalRepaid + amount <= U64_MAX && m.vault + amount <= U64_MAX)
  {
    OutstandingWithinDebt(p, id);
    var m := p.markets[id];
    assert WAD <= m.scaleFactor by { assert Inv(m); }
    RepayDecision(m, p.wl, cfg, now, amount);
  }

  lemma RepayDecision(m: MarketState, wl: Whitelist, cfg: Config, now: int, amount: u64)
    requires DebtOk(m) && Outstanding(m) <= wl.currentBorrowed && m.scaleFactor != 0
    requires 0 < amount && !cfg.paused && Accrue(m, cfg, now).Success?
    ensures Repay(m, wl, cfg, now, amount) == Failure(RepaymentExceedsDebt) <==> Outstanding(m) < amount
    ensures Repay(m, wl, cfg, now, amount).Success? <==>
              amount <= Outstanding(m) && m.totalRepaid + amount <= U64_MAX && m.vault + amount <= U64_MAX
  {
    AccrueMovesNoDebt(m, cfg, now);
    var a := Accrue(m, cfg, now).value;
    assert a.vault == m.vault;
  }
}
