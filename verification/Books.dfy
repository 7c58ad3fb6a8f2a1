/** Double-entry bookkeeping of the vault over whole runs. */
module Books {
  import opened Outcomes
  import opened FixedPoint
  import opened Positions
  import opened Markets
  import opened Invariants
  import opened Histories
  import opened Debt

  /** The vault less what it owes to lenders who left, with what is out on loan put back. */
  function Balance(m: MarketState): int {
    m.vault - m.haircutAccumulator + m.totalBorrowed - m.totalRepaid
  }

  /** Worth of the shares gone between two states, at the factor of the later one. */
  function Cancelled(m: MarketState, m': MarketState): int {
    (m.scaledSupply - m'.scaledSupply) * m'.scaleFactor / WAD
  }

  /** What a successful call brings in from outside or gives up for good: deposits and gifts,
      the worth of the shares an exit cancels, and what the sweeps take. */
  function Booked(m: MarketState, c: Call, m': MarketState): int {
    match c.ix
    case IxDeposit(_, amount) => amount
    case IxDonate(amount) => amount
    case IxWithdraw(_, _, _) => -Cancelled(m, m')
    case IxForceClose(_) => -Cancelled(m, m')
    case IxCollectFees => m'.fees - (match Accrue(m, c.cfg, c.now) case Success(a) => a.fees case Failure(_) => 0)
    case IxWithdrawExcess => m.haircutAccumulator - m.vault
    case _ => 0
  }

  function BookedBy(m: MarketState, calls: seq<Call>): int
    decreases |calls|
  {
    if |calls| == 0 then 0
    else
      (match Process(m, calls[0]) case Success(after) => Booked(m, calls[0], after.0) case Failure(_) => 0)
      + BookedBy(Step(m, calls[0]), calls[1..])
  }

  /** An exit from `m` to `m'` is booked at the worth of the shares it cancels. */
  predicate ExitBooked(m: MarketState, m': MarketState) {
    Balance(m') - Balance(m) == -Cancelled(m, m')
  }

  lemma ExitBooks(m: MarketState, m': MarketState, e: Exit, l: Lender)
    requires ExitOk(m, e, l) && Departs(e.start, m', l, e.scaled, e.normalized, e.payout) && SameDebt(m, m')
    ensures ExitBooked(m, m')
  {
    assert m.scaledSupply - m'.scaledSupply == e.scaled && m'.scaleFactor == e.start.scaleFactor;
  }

  lemma WithdrawBooks(m: MarketState, cfg: Config, now: int, l: Lender, x: u128, minPayout: u64)
    requires Inv(m) && Withdraw(m, cfg, now, l, x, minPayout).Success?
    ensures ExitBooked(m, Withdraw(m, cfg, now, l, x, minPayout).value)
  {
    var e := WithdrawIsExit(m, cfg, now, l, x, minPayout);
    WithdrawMovesNoDebt(m, cfg, now, l, x, minPayout);
    ExitBooks(m, Withdraw(m, cfg, now, l, x, minPayout).value, e, l);
  }

  lemma ForceCloseBooks(m: MarketState, cfg: Config, now: int, l: Lender)
    requires Inv(m) && ForceClose(m, cfg, now, l).Success?
    ensures ExitBooked(m, ForceClose(m, cfg, now, l).value)
  {
    var e := ForceCloseIsExit(m, cfg, now, l);
    ForceCloseMovesNoDebt(m, cfg, now, l);
    ExitBooks(m, ForceClose(m, cfg, now, l).value, e, l);
  }

  lemma ClaimBooks(m: MarketState, l: Lender)
    requires Inv(m) && 1 <= m.settlementFactor && PayClaim(m, l).Success?
    ensures Balance(PayClaim(m, l).value) == Balance(m)
  {
    PayClaimFacts(m, l);
  }

  lemma FeesBook(m: MarketState, cfg: Config, now: int)
    requires Inv(m) && CollectFees(m, cfg, now).Success?
    ensures Accrue(m, cfg, now).Success?
    ensures Balance(CollectFees(m, cfg, now).value) - Balance(m)
         == CollectFees(m, cfg, now).value.fees - Accrue(m, cfg, now).value.fees
  {
    AccrueBooks(m, cfg, now);
  }

  lemma AccrueBooks(m: MarketState, cfg: Config, now: int)
    requires Accrue(m, cfg, now).Success?
    ensures var a := Accrue(m, cfg, now).value;
            && a.vault == m.vault && a.haircutAccumulator == m.haircutAccumulator
            && a.totalBorrowed == m.totalBorrowed && a.totalRepaid == m.totalRepaid
  {
  }

  lemma InflowBooks(m: MarketState, c: Call)
    requires Process(m, c).Success? && IsEntryOrInflow(c.ix)
    ensures Balance(Process(m, c).value.0) == Balance(m) + if c.ix.IxDeposit? || c.ix.IxDonate? then c.ix.amount else 0
  {
    if Accrue(m, c.cfg, c.now).Success? {
      AccrueBooks(m, c.cfg, c.now);
    }
  }

  lemma RecoveryBooks(m: MarketState, c: Call)
    requires Inv(m) && Process(m, c).Success? && !IsEntryOrInflow(c.ix)
    ensures Balance(Process(m, c).value.0) == Balance(m) + Booked(m, c, Process(m, c).value.0)
  {
    match c.ix
    case IxWithdraw(l, x, minPayout) => WithdrawBooks(m, c.cfg, c.now, l, x, minPayout);
    case IxForceClose(l) => ForceCloseBooks(m, c.cfg, c.now, l);
    case IxClaimHaircut(l) => ClaimBooks(m, l);
    case IxForceClaimHaircut(l) => ClaimBooks(m, l);
    case IxReSettle => ReSettleFacts(m, c.cfg, c.now);
    case IxCollectFees => FeesBook(m, c.cfg, c.now);
    case IxWithdrawExcess =>
    case IxClosePosition(_) =>
  }

  lemma CallBooks(m: MarketState, c: Call)
    requires Inv(m) && Process(m, c).Success?
    ensures Balance(Process(m, c).value.0) == Balance(m) + Booked(m, c, Process(m, c).value.0)
  {
    if IsEntryOrInflow(c.ix) {
      InflowBooks(m, c);
    } else {
      RecoveryBooks(m, c);
    }
  }

  /** Over any run every token is accounted for: what the market holds and is owed, less what it
      owes, moves by exactly what was booked. Loans, repayments, claims and re-settlements only
      move value between the accounts. */
  lemma {:induction false} BooksBalance(m: MarketState, calls: seq<Call>)
    requires Inv(m)
    ensures Balance(Run(m, calls)) == Balance(m) + BookedBy(m, calls)
    decreases |calls|
  {
    if |calls| == 0 {
    } else {
      if Process(m, calls[0]).Success? {
        ProcessKeepsInv(m, calls[0]);
        CallBooks(m, calls[0]);
      }
      BooksBalance(Step(m, calls[0]), calls[1..]);
    }
  }
}
