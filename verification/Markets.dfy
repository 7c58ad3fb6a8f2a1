/** A lending market as a value, and what each instruction does to it.

    Every instruction is a function from the state before to the state after, or to
    the error that makes the runtime discard the transaction. Sums are updated here by
    exact differences; the in-place methods of `MarketAccount` use the program's
    saturating subtractions and are proved to agree. */
module Markets {
  import opened Outcomes
  import opened FixedPoint
  import opened Interest
  import opened Haircuts
  import opened Positions

  const MIN_MATURITY_DELTA: int := 60
  const SETTLEMENT_GRACE_PERIOD: int := 300

  type u64 = x: int | 0 <= x <= U64_MAX
  type u128 = x: int | 0 <= x <= U128_MAX
  type FeeRate = x: int | 0 <= x <= BPS

  /** Protocol-wide settings an instruction reads. */
  datatype Config = Config(feeRateBps: FeeRate, paused: bool)

  /** A borrower's standing across all of its markets. */
  datatype Whitelist = Whitelist(whitelisted: bool, maxBorrowCapacity: int, currentBorrowed: int)

  datatype MarketState = MarketState(
    annualBps: int,
    maturity: int,
    maxTotalSupply: int,
    vault: int,
    scaledSupply: int,
    scaleFactor: int,
    fees: int,
    totalDeposited: int,
    totalBorrowed: int,
    totalRepaid: int,
    totalInterestRepaid: int,
    lastAccrual: int,
    settlementFactor: int,
    haircutAccumulator: int,
    weightSum: int,
    offsetSum: int,
    book: Book)

  /** Normalized value of a scaled balance, with its overflow. */
  function Normalize(scaled: int, factor: int): Result<int> {
    var product :- MulU128(scaled, factor);
    Success(product / WAD)
  }

  function SettlementFactor(available: int, totalNormalized: int): Result<int> {
    if totalNormalized <= 0 then Success(WAD)
    else
      var product :- MulU128(available, WAD);
      Success(Max(1, Min(WAD, product / totalNormalized)))
  }

  // ------------------------------------------------------------------
  // Accrual
  // ------------------------------------------------------------------

  function FeeFor(supply: int, factor: int, growth: int, rate: FeeRate): Result<int> {
    var share :- MulU128(growth - WAD, rate);
    var normalized :- Normalize(supply, factor);
    var product :- MulU128(normalized, share / BPS);
    ToU64(product / WAD)
  }

  function Accrue(m: MarketState, cfg: Config, now: int): Result<MarketState> {
    var effectiveNow := Min(now, m.maturity);
    if effectiveNow < m.lastAccrual then Failure(InvalidTimestamp)
    else if effectiveNow - m.lastAccrual > I64_MAX then Failure(MathOverflow)
    else if effectiveNow == m.lastAccrual then Success(m)
    else
      var growth :- Growth(m.annualBps, effectiveNow - m.lastAccrual);
      Grow(m, cfg, growth, effectiveNow)
  }

  /** Applies a growth factor and charges the fee on the interest. */
  function Grow(m: MarketState, cfg: Config, growth: int, effectiveNow: int): Result<MarketState> {
    var scaleFactor :- MulWad(m.scaleFactor, growth);
    var _ :- SubChecked(growth, WAD);
    var fees :-
      if cfg.feeRateBps > 0 then
        var fee :- FeeFor(m.scaledSupply, m.scaleFactor, growth, cfg.feeRateBps);
        AddU64(m.fees, fee)
      else Success(m.fees);
    Success(m.(fees := fees, scaleFactor := scaleFactor, lastAccrual := effectiveNow))
  }

  // ------------------------------------------------------------------
  // Before maturity
  // ------------------------------------------------------------------

  function CreateMarket(cfg: Config, wl: Whitelist, annualBps: int, maturity: int, maxTotalSupply: u64, now: int)
    : Result<MarketState>
  {
    if cfg.paused then Failure(ProtocolPaused)
    else if annualBps > MAX_ANNUAL_INTEREST_BPS then Failure(InvalidFeeRate)
    else if now + MIN_MATURITY_DELTA > I64_MAX then Failure(MathOverflow)
    else if maturity <= now + MIN_MATURITY_DELTA then Failure(InvalidMaturity)
    else if now + MAX_TERM > I64_MAX then Failure(MathOverflow)
    else if maturity > now + MAX_TERM then Failure(InvalidMaturity)
    else if maturity + SETTLEMENT_GRACE_PERIOD > I64_MAX then Failure(MathOverflow)
    else if maxTotalSupply == 0 then Failure(InvalidCapacity)
    else if !wl.whitelisted then Failure(NotWhitelisted)
    else Success(MarketState(annualBps, maturity, maxTotalSupply, 0, 0, WAD, 0, 0, 0, 0, 0, now, 0, 0, 0, 0, map[]))
  }

  function Deposit(m: MarketState, cfg: Config, now: int, l: Lender, amount: u64): Result<MarketState> {
    if amount == 0 then Failure(ZeroAmount)
    else if cfg.paused then Failure(ProtocolPaused)
    else if now >= m.maturity then Failure(MarketMatured)
    else
      var a :- Accrue(m, cfg, now);
      AcceptDeposit(a, l, amount)
  }

  /** Turns an amount into shares at the current factor and credits them. */
  function AcceptDeposit(a: MarketState, l: Lender, amount: u64): Result<MarketState> {
    if a.scaleFactor <= 0 then Failure(InvalidScaleFactor)
    else
      var product :- MulU128(amount, WAD);
      var scaled := product / a.scaleFactor;
      if scaled == 0 then Failure(ZeroScaledAmount)
      else
        var deposited :- AddU64(a.totalDeposited, amount);
        if deposited > a.maxTotalSupply then Failure(CapExceeded)
        else
          var supply :- AddU128(a.scaledSupply, scaled);
          var p := PositionOf(a.book, l);
          var balance :- AddU128(p.scaledBalance, scaled);
          if a.vault + amount > U64_MAX then Failure(TransferFailed)
          else Success(a.(
            book := a.book[l := p.(scaledBalance := balance)],
            scaledSupply := supply,
            totalDeposited := deposited,
            vault := a.vault + amount))
  }

  function Borrow(m: MarketState, wl: Whitelist, cfg: Config, now: int, amount: u64): Result<(MarketState, Whitelist)> {
    if amount == 0 then Failure(ZeroAmount)
    else if cfg.paused then Failure(ProtocolPaused)
    else if m.scaleFactor == 0 then Failure(InvalidScaleFactor)
    else if now >= m.maturity then Failure(MarketMatured)
    else
      var a :- Accrue(m, cfg, now);
      Lend(a, wl, amount)
  }

  /** Lends out of the vault within the borrower's capacity. */
  function Lend(a: MarketState, wl: Whitelist, amount: u64): Result<(MarketState, Whitelist)> {
    if amount > a.vault then Failure(BorrowAmountTooHigh)
    else if !wl.whitelisted then Failure(NotWhitelisted)
    else
      var debt :- AddU64(wl.currentBorrowed, amount);
      if debt > wl.maxBorrowCapacity then Failure(GlobalCapacityExceeded)
      else
        var borrowed :- AddU64(a.totalBorrowed, amount);
        Success((a.(totalBorrowed := borrowed, vault := a.vault - amount), wl.(currentBorrowed := debt)))
  }

  /** Principal still owed on this market: what was borrowed less the principal repaid. */
  function Outstanding(m: MarketState): int {
    m.totalBorrowed - (m.totalRepaid - m.totalInterestRepaid)
  }

  function Repay(m: MarketState, wl: Whitelist, cfg: Config, now: int, amount: u64): Result<(MarketState, Whitelist)> {
    if amount == 0 then Failure(ZeroAmount)
    else if m.scaleFactor == 0 then Failure(InvalidScaleFactor)
    else if cfg.paused then Failure(ProtocolPaused)
    else
      var a :- Accrue(m, cfg, now);
      AcceptRepayment(a, wl, amount)
  }

  /** Books a repayment of principal against the market's debt and the borrower's. */
  function AcceptRepayment(a: MarketState, wl: Whitelist, amount: u64): Result<(MarketState, Whitelist)> {
    var principalRepaid :- SubChecked(a.totalRepaid, a.totalInterestRepaid);
    var outstanding :- SubChecked(a.totalBorrowed, principalRepaid);
    if amount > outstanding then Failure(RepaymentExceedsDebt)
    else if amount > wl.currentBorrowed then Failure(RepaymentExceedsDebt)
    else
      var repaid :- AddU64(a.totalRepaid, amount);
      if a.vault + amount > U64_MAX then Failure(TransferFailed)
      else Success((a.(totalRepaid := repaid, vault := a.vault + amount),
                    wl.(currentBorrowed := wl.currentBorrowed - amount)))
  }

  function RepayInterest(m: MarketState, cfg: Config, now: int, amount: u64): Result<MarketState> {
    if amount == 0 then Failure(ZeroAmount)
    else if m.scaleFactor == 0 then Failure(InvalidScaleFactor)
    else if cfg.paused then Failure(ProtocolPaused)
    else
      var a :- Accrue(m, cfg, now);
      AcceptInterest(a, amount)
  }

  /** Books a payment of interest, which leaves the principal debt alone. */
  function AcceptInterest(a: MarketState, amount: u64): Result<MarketState> {
    var repaid :- AddU64(a.totalRepaid, amount);
    var interest :- AddU64(a.totalInterestRepaid, amount);
    if a.vault + amount > U64_MAX then Failure(TransferFailed)
    else Success(a.(totalRepaid := repaid, totalInterestRepaid := interest, vault := a.vault + amount))
  }

  /** Tokens sent to the vault by anyone, outside the program. */
  function Donate(m: MarketState, amount: u64): Result<MarketState> {
    if m.vault + amount > U64_MAX then Failure(TransferFailed)
    else Success(m.(vault := m.vault + amount))
  }

  // ------------------------------------------------------------------
  // Settlement and exit
  // ------------------------------------------------------------------

  /** Locks the settlement factor if this is the first exit. */
  function Settle(m: MarketState): Result<MarketState> {
    if m.settlementFactor != 0 then Success(m)
    else
      var total :- Normalize(m.scaledSupply, m.scaleFactor);
      var factor :- SettlementFactor(m.vault, total);
      Success(m.(settlementFactor := factor))
  }

  /** True when an exit of `normalized` units re-anchors a haircut left at a lower factor. */
  predicate Rebases(m: MarketState, l: Lender, normalized: int) {
    var p := PositionOf(m.book, l);
    && m.settlementFactor < WAD
    && 0 < normalized
    && 0 < p.haircutOwed
    && p.withdrawalSf != m.settlementFactor
  }

  /** Adds the unpaid part of an exit to the lender's haircut, re-anchored at the current
      factor; the payout grows by what the re-anchoring recovers. */
  function RecordGap(m: MarketState, l: Lender, normalized: int, payout: int): Result<(MarketState, int)> {
    if m.settlementFactor >= WAD then Success((m, payout))
    else
      var entitled :- ToU64(normalized);
      var gap := SatSub(entitled, payout);
      if gap == 0 then Success((m, payout))
      else
        var p, s := PositionOf(m.book, l), m.settlementFactor;
        var was :- PositionContribution(p.haircutOwed, p.withdrawalSf);
        var remaining :-
          if p.haircutOwed > 0 then RebaseRemainingOwed(p.haircutOwed, p.withdrawalSf, s) else Success(0);
        var recovered := p.haircutOwed - remaining;
        var total :- AddU64(payout, recovered);
        var r :- AddGap(m.(haircutAccumulator := m.haircutAccumulator - recovered,
                           weightSum := m.weightSum - was.0,
                           offsetSum := m.offsetSum - was.1), l, remaining, gap);
        Success((r, total))
  }

  /** Anchors `rebased + gap` at the current factor in place of the lender's haircut. */
  function AddGap(m: MarketState, l: Lender, rebased: int, gap: int): Result<MarketState> {
    var s := m.settlementFactor;
    var owed :- AddU64(rebased, gap);
    var accumulator :- AddU64(m.haircutAccumulator, gap);
    var becomes :- PositionContribution(owed, s);
    var weightSum :- AddU128(m.weightSum, becomes.0);
    var offsetSum :- AddU128(m.offsetSum, becomes.1);
    Success(m.(
      book := m.book[l := PositionOf(m.book, l).(haircutOwed := owed, withdrawalSf := s)],
      haircutAccumulator := accumulator,
      weightSum := weightSum,
      offsetSum := offsetSum))
  }

  /** Takes `scaled` shares off a lender's balance and sends `total` tokens. */
  function TakeShares(r: MarketState, l: Lender, scaled: int, total: int): Result<MarketState> {
    var p := PositionOf(r.book, l);
    var balance :- SubChecked(p.scaledBalance, scaled);
    var supply :- SubChecked(r.scaledSupply, scaled);
    if total > r.vault then Failure(TransferFailed)
    else Success(r.(
      book := r.book[l := p.(scaledBalance := balance)],
      scaledSupply := supply,
      vault := r.vault - total))
  }

  /** Pays out `scaled` of a lender's balance at the locked factor. */
  function Leave(m: MarketState, l: Lender, scaled: int, normalized: int, payout: int): Result<MarketState> {
    var recorded :- RecordGap(m, l, normalized, payout);
    TakeShares(recorded.0, l, scaled, recorded.1)
  }

  function Withdraw(m: MarketState, cfg: Config, now: int, l: Lender, scaledAmount: u128, minPayout: u64)
    : Result<MarketState>
  {
    if cfg.paused then Failure(ProtocolPaused)
    else if now < m.maturity then Failure(NotMatured)
    else
      var a :- Accrue(m, cfg, now);
      if l !in a.book then Failure(AccountMissing)
      else if a.book[l].scaledBalance == 0 then Failure(NoBalance)
      else if a.settlementFactor == 0 && a.maturity + SETTLEMENT_GRACE_PERIOD > I64_MAX then Failure(MathOverflow)
      else if a.settlementFactor == 0 && now < a.maturity + SETTLEMENT_GRACE_PERIOD then Failure(SettlementGracePeriod)
      else
        var s :- Settle(a);
        WithdrawShare(s, l, scaledAmount, minPayout)
  }

  /** Resolves the amount of a withdrawal from a settled market, prices it and pays it. */
  function WithdrawShare(s: MarketState, l: Lender, scaledAmount: u128, minPayout: u64): Result<MarketState>
    requires l in s.book
  {
    var scaled := if scaledAmount == 0 then s.book[l].scaledBalance else scaledAmount;
    if scaled > s.book[l].scaledBalance then Failure(InsufficientScaledBalance)
    else if s.scaleFactor == 0 then Failure(InvalidScaleFactor)
    else
      var normalized :- Normalize(scaled, s.scaleFactor);
      var share :- Normalize(normalized, s.settlementFactor);
      var payout :- ToU64(share);
      if payout == 0 then Failure(ZeroPayout)
      else if 0 < minPayout && payout < minPayout then Failure(PayoutBelowMinimum)
      else
        var left :- Leave(s, l, scaled, normalized, payout);
        Success(left.(totalDeposited := SatSub(s.totalDeposited, s.vault - left.vault)))
  }

  function ForceClose(m: MarketState, cfg: Config, now: int, l: Lender): Result<MarketState> {
    if cfg.paused then Failure(ProtocolPaused)
    else if now < m.maturity then Failure(NotMatured)
    else if m.maturity + SETTLEMENT_GRACE_PERIOD > I64_MAX then Failure(MathOverflow)
    else if now < m.maturity + SETTLEMENT_GRACE_PERIOD then Failure(SettlementGracePeriod)
    else
      var a :- Accrue(m, cfg, now);
      if a.settlementFactor == 0 && a.scaleFactor == 0 then Failure(InvalidScaleFactor)
      else
        var s :- Settle(a);
        CloseOut(s, l)
  }

  /** Prices and pays out the whole balance of a lender of a settled market. */
  function CloseOut(s: MarketState, l: Lender): Result<MarketState> {
    if l !in s.book then Failure(AccountMissing)
    else if s.book[l].scaledBalance == 0 then Failure(NoBalance)
    else if s.scaleFactor == 0 then Failure(InvalidScaleFactor)
    else
      var scaled := s.book[l].scaledBalance;
      var normalized :- Normalize(scaled, s.scaleFactor);
      var share :- Normalize(normalized, s.settlementFactor);
      var payout :- ToU64(share);
      Leave(s, l, scaled, normalized, payout)
  }

  // ------------------------------------------------------------------
  // Recovery
  // ------------------------------------------------------------------

  /** What the vault must keep for lenders still in the market. */
  function RemainingObligations(m: MarketState): Result<int> {
    if m.scaledSupply <= 0 then Success(0)
    else if m.scaleFactor == 0 then Failure(InvalidScaleFactor)
    else
      var total :- Normalize(m.scaledSupply, m.scaleFactor);
      var share :- Normalize(total, m.settlementFactor);
      ToU64(share)
  }

  function PayClaim(m: MarketState, l: Lender): Result<MarketState> {
    if l !in m.book then Failure(AccountMissing)
    else
      var p, s := m.book[l], m.settlementFactor;
      if p.haircutOwed == 0 then Failure(NoHaircutToClaim)
      else if s <= p.withdrawalSf then Failure(SettlementNotImproved)
      else
        var exact :- ClaimableExact(p.haircutOwed, p.withdrawalSf, s);
        var reserved :- RemainingObligations(m);
        var claim := Min(exact, SatSub(m.vault, reserved));
        if claim == 0 then Failure(ZeroPayout)
        else
          SpendClaim(m, l, claim)
  }

  /** Pays `claim` of a lender's haircut. */
  function SpendClaim(m: MarketState, l: Lender, claim: int): Result<MarketState>
    requires l in m.book
  {
    var r :- ReduceHaircut(m, l, claim);
    if claim > m.vault then Failure(TransferFailed) else Success(r.(vault := m.vault - claim))
  }

  /** Takes `claim` off a lender's haircut and re-anchors the rest at the current factor. */
  function ReduceHaircut(m: MarketState, l: Lender, claim: int): Result<MarketState>
    requires l in m.book
  {
    var p, s := m.book[l], m.settlementFactor;
    var was :- PositionContribution(p.haircutOwed, p.withdrawalSf);
    var owed :- SubChecked(p.haircutOwed, claim);
    var accumulator :- SubChecked(m.haircutAccumulator, claim);
    var becomes :- if owed > 0 then PositionContribution(owed, s) else Success((0, 0));
    var weightSum :- AddU128(m.weightSum - was.0, becomes.0);
    var offsetSum :- AddU128(m.offsetSum - was.1, becomes.1);
    Success(m.(
      book := m.book[l := p.(haircutOwed := owed, withdrawalSf := if owed > 0 then s else 0)],
      haircutAccumulator := accumulator,
      weightSum := weightSum,
      offsetSum := offsetSum))
  }

  function ClaimHaircut(m: MarketState, cfg: Config, l: Lender): Result<MarketState> {
    if cfg.paused then Failure(ProtocolPaused)
    else if m.settlementFactor == 0 then Failure(NotSettled)
    else PayClaim(m, l)
  }

  function ForceClaimHaircut(m: MarketState, cfg: Config, now: int, l: Lender): Result<MarketState> {
    if cfg.paused then Failure(ProtocolPaused)
    else if now < m.maturity then Failure(NotMatured)
    else if m.maturity + SETTLEMENT_GRACE_PERIOD > I64_MAX then Failure(MathOverflow)
    else if now < m.maturity + SETTLEMENT_GRACE_PERIOD then Failure(SettlementGracePeriod)
    else if m.settlementFactor == 0 then Failure(NotSettled)
    else PayClaim(m, l)
  }

  function ReSettle(m: MarketState, cfg: Config, now: int): Result<MarketState> {
    if m.settlementFactor == 0 then Failure(NotSettled)
    else if cfg.paused then Failure(ProtocolPaused)
    else
      var a :- Accrue(m, cfg, now);
      if a.scaleFactor == 0 then Failure(InvalidScaleFactor)
      else
        var total :- Normalize(a.scaledSupply, a.scaleFactor);
        var factor :- ComputeResettleFactor(a.vault, total, a.weightSum, a.offsetSum);
        if factor <= m.settlementFactor then Failure(SettlementNotImproved)
        else Success(a.(settlementFactor := factor))
  }

  // ------------------------------------------------------------------
  // Sweeps and account closing
  // ------------------------------------------------------------------

  function CollectFees(m: MarketState, cfg: Config, now: int): Result<MarketState> {
    if cfg.paused then Failure(ProtocolPaused)
    else if m.scaleFactor == 0 then Failure(InvalidScaleFactor)
    else if 0 < m.settlementFactor < WAD then Failure(FeeCollectionDuringDistress)
    else if 0 < m.scaledSupply && m.settlementFactor != WAD then Failure(LendersPendingWithdrawals)
    else
      var a :- Accrue(m, cfg, now);
      TakeFees(a)
  }

  /** Takes accrued fees out of the surplus above every lender's claim. */
  function TakeFees(a: MarketState): Result<MarketState> {
    if a.fees == 0 then Failure(NoFeesToCollect)
    else
      var claims :- if 0 < a.scaledSupply then
          var total :- Normalize(a.scaledSupply, a.scaleFactor);
          ToU64(total)
        else Success(0);
      var safe := SatSub(SatSub(a.vault, claims), a.haircutAccumulator);
      var take := Min(Min(a.fees, a.vault), safe);
      if take == 0 then Failure(NoFeesToCollect)
      else Success(a.(fees := a.fees - take, vault := a.vault - take))
  }

  function WithdrawExcess(m: MarketState, wl: Whitelist, cfg: Config, now: int): Result<MarketState> {
    if cfg.paused then Failure(ProtocolPaused)
    else if !wl.whitelisted then Failure(NotWhitelisted)
    else if now < m.maturity then Failure(NotMatured)
    else if 0 < m.scaledSupply then Failure(LendersPendingWithdrawals)
    else if m.settlementFactor == 0 then Failure(SettlementNotComplete)
    else if m.settlementFactor < WAD then Failure(FeeCollectionDuringDistress)
    else if 0 < m.fees then Failure(FeesNotCollected)
    else
      var excess := SatSub(m.vault, m.haircutAccumulator);
      if excess == 0 then Failure(NoExcessToWithdraw)
      else Success(m.(vault := m.vault - excess))
  }

  function ClosePosition(m: MarketState, cfg: Config, l: Lender): Result<MarketState> {
    if cfg.paused then Failure(ProtocolPaused)
    else if l !in m.book then Failure(AccountMissing)
    else if m.book[l].scaledBalance != 0 then Failure(PositionNotEmpty)
    else if m.book[l].haircutOwed != 0 then Failure(PositionNotEmpty)
    else Success(m.(book := m.book - {l}))
  }

  // ------------------------------------------------------------------
  // Instructions and steps
  // ------------------------------------------------------------------

  datatype Instruction =
    | IxDeposit(lender: Lender, amount: u64)
    | IxBorrow(amount: u64)
    | IxRepay(amount: u64)
    | IxRepayInterest(amount: u64)
    | IxDonate(amount: u64)
    | IxWithdraw(lender: Lender, scaledAmount: u128, minPayout: u64)
    | IxForceClose(lender: Lender)
    | IxClaimHaircut(lender: Lender)
    | IxForceClaimHaircut(lender: Lender)
    | IxReSettle
    | IxCollectFees
    | IxWithdrawExcess
    | IxClosePosition(lender: Lender)

  /** An instruction with the clock, the settings and the whitelist entry it runs against. */
  datatype Call = Call(cfg: Config, now: int, wl: Whitelist, ix: Instruction)

  function WithWhitelist(r: Result<MarketState>, wl: Whitelist): Result<(MarketState, Whitelist)> {
    match r
    case Success(m) => Success((m, wl))
    case Failure(e) => Failure(e)
  }

  function Process(m: MarketState, c: Call): Result<(MarketState, Whitelist)> {
    match c.ix
    case IxDeposit(l, amount) => WithWhitelist(Deposit(m, c.cfg, c.now, l, amount), c.wl)
    case IxBorrow(amount) => Borrow(m, c.wl, c.cfg, c.now, amount)
    case IxRepay(amount) => Repay(m, c.wl, c.cfg, c.now, amount)
    case IxRepayInterest(amount) => WithWhitelist(RepayInterest(m, c.cfg, c.now, amount), c.wl)
    case IxDonate(amount) => WithWhitelist(Donate(m, amount), c.wl)
    case IxWithdraw(l, x, minPayout) => WithWhitelist(Withdraw(m, c.cfg, c.now, l, x, minPayout), c.wl)
    case IxForceClose(l) => WithWhitelist(ForceClose(m, c.cfg, c.now, l), c.wl)
    case IxClaimHaircut(l) => WithWhitelist(ClaimHaircut(m, c.cfg, l), c.wl)
    case IxForceClaimHaircut(l) => WithWhitelist(ForceClaimHaircut(m, c.cfg, c.now, l), c.wl)
    case IxReSettle => WithWhitelist(ReSettle(m, c.cfg, c.now), c.wl)
    case IxCollectFees => WithWhitelist(CollectFees(m, c.cfg, c.now), c.wl)
    case IxWithdrawExcess => WithWhitelist(WithdrawExcess(m, c.wl, c.cfg, c.now), c.wl)
    case IxClosePosition(l) => WithWhitelist(ClosePosition(m, c.cfg, l), c.wl)
  }

  /** One transaction: a failed one leaves the market as it was. */
  function Step(m: MarketState, c: Call): MarketState {
    match Process(m, c)
    case Success(after) => after.0
    case Failure(_) => m
  }

  function Run(m: MarketState, calls: seq<Call>): MarketState
    decreases |calls|
  {
    if |calls| == 0 then m else Run(Step(m, calls[0]), calls[1..])
  }
}
