/** The program's in-place instruction handlers over the stored accounts.

    Each handler updates fields in the order the program does and stops at the first error,
    leaving whatever it has already written; `Execute` is the transaction around it, which
    restores the accounts when a handler fails. */
module MarketAccount {
  import opened Outcomes
  import opened FixedPoint
  import opened Interest
  import opened Haircuts
  import opened Positions
  import opened Markets
  import opened Invariants
  import Spec = Markets

  /** A handler's result and the state it left agree with what the instruction should do. */
  predicate Agrees(spec: Result<MarketState>, r: Result<()>, after: MarketState) {
    match spec
    case Success(m) => r == Success(()) && after == m
    case Failure(e) => r == Failure(e)
  }

  predicate AgreesWithDebt(spec: Result<(MarketState, Whitelist)>, r: Result<()>, after: MarketState, wl: Whitelist) {
    match spec
    case Success(out) => r == Success(()) && after == out.0 && wl == out.1
    case Failure(e) => r == Failure(e)
  }

  class WhitelistAccount {
    var whitelisted: bool
    var maxBorrowCapacity: int
    var currentBorrowed: int

    constructor (wl: Whitelist)
      ensures Contents() == wl
    {
      whitelisted := wl.whitelisted;
      maxBorrowCapacity := wl.maxBorrowCapacity;
      currentBorrowed := wl.currentBorrowed;
    }

    function Contents(): Whitelist
      reads this
    {
      Whitelist(whitelisted, maxBorrowCapacity, currentBorrowed)
    }
  }

  method ComputeGrowth(bps: int, elapsed: nat) returns (r: Result<int>)
    ensures r == Growth(bps, elapsed)
  {
    var days, rest := elapsed / SECONDS_PER_DAY, elapsed % SECONDS_PER_DAY;
    if days > U32_MAX {
      return Failure(MathOverflow);
    }
    var yearly := MulU128(bps, WAD);
    if yearly.Failure? {
      return yearly;
    }
    var base := AddU128(WAD, yearly.value / (DAYS_PER_YEAR * BPS));
    if base.Failure? {
      return base;
    }
    var daysGrowth := ComputePowWad(base.value, days);
    if daysGrowth.Failure? {
      return daysGrowth;
    }
    var partial := MulU128(bps * rest, WAD);
    if partial.Failure? {
      return partial;
    }
    var restGrowth := AddU128(WAD, partial.value / (SECONDS_PER_YEAR * BPS));
    if restGrowth.Failure? {
      return restGrowth;
    }
    r := MulWad(daysGrowth.value, restGrowth.value);
  }

  class Market {
    const annualBps: int
    const maturity: int
    const maxTotalSupply: int
    var vault: int
    var scaledSupply: int
    var scaleFactor: int
    var fees: int
    var totalDeposited: int
    var totalBorrowed: int
    var totalRepaid: int
    var totalInterestRepaid: int
    var lastAccrual: int
    var settlementFactor: int
    var haircutAccumulator: int
    var weightSum: int
    var offsetSum: int
    var book: Book

    function Contents(): MarketState
      reads this
    {
      MarketState(annualBps, maturity, maxTotalSupply, vault, scaledSupply, scaleFactor, fees, totalDeposited,
                  totalBorrowed, totalRepaid, totalInterestRepaid, lastAccrual, settlementFactor,
                  haircutAccumulator, weightSum, offsetSum, book)
    }

    ghost predicate Valid()
      reads this
    {
      Inv(Contents())
    }

    /** A market nobody has entered yet, accruing from `now`. */
    constructor (annualBps: int, maturity: int, maxTotalSupply: int, now: int)
      ensures Contents()
           == MarketState(annualBps, maturity, maxTotalSupply, 0, 0, WAD, 0, 0, 0, 0, 0, now, 0, 0, 0, 0, map[])
    {
      this.annualBps, this.maturity, this.maxTotalSupply := annualBps, maturity, maxTotalSupply;
      scaleFactor, lastAccrual := WAD, now;
      vault, scaledSupply, fees := 0, 0, 0;
      totalDeposited, totalBorrowed, totalRepaid, totalInterestRepaid := 0, 0, 0, 0;
      settlementFactor, haircutAccumulator, weightSum, offsetSum := 0, 0, 0, 0;
      book := map[];
    }

    static method Create(cfg: Config, wl: WhitelistAccount, annualBps: nat, maturity: int, cap: u64, now: int)
      returns (r: Result<Market>)
      ensures match CreateMarket(cfg, wl.Contents(), annualBps, maturity, cap, now)
              case Success(m) => r.Success? && fresh(r.value) && r.value.Contents() == m && r.value.Valid()
              case Failure(e) => r == Failure(e)
    {
      if cfg.paused {
        return Failure(ProtocolPaused);
      }
      if annualBps > MAX_ANNUAL_INTEREST_BPS {
        return Failure(InvalidFeeRate);
      }
      if now + MIN_MATURITY_DELTA > I64_MAX {
        return Failure(MathOverflow);
      }
      if maturity <= now + MIN_MATURITY_DELTA {
        return Failure(InvalidMaturity);
      }
      if now + MAX_TERM > I64_MAX {
        return Failure(MathOverflow);
      }
      if maturity > now + MAX_TERM {
        return Failure(InvalidMaturity);
      }
      if maturity + SETTLEMENT_GRACE_PERIOD > I64_MAX {
        return Failure(MathOverflow);
      }
      if cap == 0 {
        return Failure(InvalidCapacity);
      }
      if !wl.whitelisted {
        return Failure(NotWhitelisted);
      }
      var market := new Market(annualBps, maturity, cap, now);
      CreateKeepsInv(cfg, wl.Contents(), annualBps, maturity, cap, now);
      return Success(market);
    }

    /** Puts the stored fields back, as the runtime does when a transaction fails. */
    method Restore(state: MarketState)
      requires state.annualBps == annualBps && state.maturity == maturity && state.maxTotalSupply == maxTotalSupply
      modifies this
      ensures Contents() == state
    {
      RestoreMoney(state);
      RestoreShares(state);
    }

    method RestoreMoney(state: MarketState)
      modifies this`vault, this`fees, this`totalDeposited, this`totalBorrowed, this`totalRepaid,
               this`totalInterestRepaid
      ensures vault == state.vault && fees == state.fees && totalDeposited == state.totalDeposited
      ensures totalBorrowed == state.totalBorrowed && totalRepaid == state.totalRepaid
      ensures totalInterestRepaid == state.totalInterestRepaid
    {
      vault, fees, totalDeposited := state.vault, state.fees, state.totalDeposited;
      totalBorrowed, totalRepaid := state.totalBorrowed, state.totalRepaid;
      totalInterestRepaid := state.totalInterestRepaid;
    }

    method RestoreShares(state: MarketState)
      modifies this`scaledSupply, this`scaleFactor, this`lastAccrual, this`settlementFactor,
               this`haircutAccumulator, this`weightSum, this`offsetSum, this`book
      ensures scaledSupply == state.scaledSupply && scaleFactor == state.scaleFactor
      ensures lastAccrual == state.lastAccrual && settlementFactor == state.settlementFactor
      ensures haircutAccumulator == state.haircutAccumulator
      ensures weightSum == state.weightSum && offsetSum == state.offsetSum && book == state.book
    {
      scaledSupply, scaleFactor := state.scaledSupply, state.scaleFactor;
      lastAccrual, settlementFactor := state.lastAccrual, state.settlementFactor;
      haircutAccumulator, weightSum, offsetSum := state.haircutAccumulator, state.weightSum, state.offsetSum;
      book := state.book;
    }

    // ----------------------------------------------------------------
    // Interest
    // ----------------------------------------------------------------

    method AccrueInterest(cfg: Config, now: int) returns (r: Result<()>)
      modifies this`fees, this`scaleFactor, this`lastAccrual
      ensures Agrees(Accrue(old(Contents()), cfg, now), r, Contents())
      ensures old(Valid()) && r.Success? ==> Valid() && (maturity <= now ==> lastAccrual == maturity)
    {
      ghost var before := Contents();
      var effectiveNow := if now > maturity then maturity else now;
      if effectiveNow < lastAccrual {
        return Failure(InvalidTimestamp);
      }
      if effectiveNow - lastAccrual > I64_MAX {
        return Failure(MathOverflow);
      }
      if effectiveNow == lastAccrual {
        return Success(());
      }
      var growth := ComputeGrowth(annualBps, effectiveNow - lastAccrual);
      if growth.Failure? {
        return Failure(growth.error);
      }
      r := Grow(cfg, growth.value, effectiveNow);
      if r.Success? && Inv(before) {
        AccrualIsValid(before, Contents(), cfg, now);
      }
    }

    /** Applies a growth factor and charges the fee on the interest. */
    method Grow(cfg: Config, growth: int, effectiveNow: int) returns (r: Result<()>)
      modifies this`fees, this`scaleFactor, this`lastAccrual
      ensures Agrees(Spec.Grow(old(Contents()), cfg, growth, effectiveNow), r, Contents())
    {
      var newFactor := MulWad(scaleFactor, growth);
      if newFactor.Failure? {
        return Failure(newFactor.error);
      }
      var delta := SubChecked(growth, WAD);
      if delta.Failure? {
        return Failure(delta.error);
      }
      var charged := ChargeFees(cfg, growth);
      if charged.Failure? {
        return charged;
      }
      scaleFactor := newFactor.value;
      lastAccrual := effectiveNow;
      return Success(());
    }

    method ChargeFees(cfg: Config, growth: int) returns (r: Result<()>)
      modifies this`fees
      ensures var fee := FeeFor(scaledSupply, scaleFactor, growth, cfg.feeRateBps);
              if cfg.feeRateBps == 0 then r == Success(()) && fees == old(fees)
              else if fee.Failure? then r == Failure(fee.error)
              else if AddU64(old(fees), fee.value).Failure? then r == Failure(MathOverflow)
              else r == Success(()) && fees == old(fees) + fee.value
    {
      if cfg.feeRateBps == 0 {
        return Success(());
      }
      var fee := FeeFor(scaledSupply, scaleFactor, growth, cfg.feeRateBps);
      if fee.Failure? {
        return Failure(fee.error);
      }
      var newFees := AddU64(fees, fee.value);
      if newFees.Failure? {
        return Failure(newFees.error);
      }
      fees := newFees.value;
      return Success(());
    }

    // ----------------------------------------------------------------
    // Before maturity
    // ----------------------------------------------------------------

    method Deposit(cfg: Config, now: int, l: Lender, amount: u64) returns (r: Result<()>)
      modifies this
      ensures Agrees(Spec.Deposit(old(Contents()), cfg, now, l, amount), r, Contents())
      ensures r.Failure? ==> vault == old(vault)
      ensures old(Valid()) && r.Success? ==> Valid() && vault == old(vault) + amount && settlementFactor == 0
    {
      ghost var before := Contents();
      if amount == 0 {
        return Failure(ZeroAmount);
      }
      if cfg.paused {
        return Failure(ProtocolPaused);
      }
      if now >= maturity {
        return Failure(MarketMatured);
      }
      var accrued := AccrueInterest(cfg, now);
      if accrued.Failure? {
        return accrued;
      }
      r := CreditDeposit(l, amount);
      if r.Success? && Inv(before) {
        DepositOutcome(before, Contents(), cfg, now, l, amount);
      }
    }

    method CreditDeposit(l: Lender, amount: u64) returns (r: Result<()>)
      modifies this
      ensures Agrees(AcceptDeposit(old(Contents()), l, amount), r, Contents())
      ensures r.Failure? ==> vault == old(vault)
    {
      if scaleFactor <= 0 {
        return Failure(InvalidScaleFactor);
      }
      var product := MulU128(amount, WAD);
      if product.Failure? {
        return Failure(product.error);
      }
      var scaled := product.value / scaleFactor;
      if scaled == 0 {
        return Failure(ZeroScaledAmount);
      }
      var deposited := AddU64(totalDeposited, amount);
      if deposited.Failure? {
        return Failure(deposited.error);
      }
      if deposited.value > maxTotalSupply {
        return Failure(CapExceeded);
      }
      var supply := AddU128(scaledSupply, scaled);
      if supply.Failure? {
        return Failure(supply.error);
      }
      if l in book {
        var balance := AddU128(book[l].scaledBalance, scaled);
        if balance.Failure? {
          return Failure(balance.error);
        }
        book := book[l := book[l].(scaledBalance := balance.value)];
      } else {
        if scaled > U128_MAX {
          return Failure(MathOverflow);
        }
        book := book[l := Position(scaled, 0, 0)];
      }
      scaledSupply := supply.value;
      totalDeposited := deposited.value;
      r := TransferIn(amount);
    }

    method TransferIn(amount: int) returns (r: Result<()>)
      modifies this`vault
      ensures vault == if r.Success? then old(vault) + amount else old(vault)
      ensures r == if old(vault) + amount > U64_MAX then Failure(TransferFailed) else Success(())
    {
      if vault + amount > U64_MAX {
        return Failure(TransferFailed);
      }
      vault := vault + amount;
      return Success(());
    }

    method TransferOut(amount: int) returns (r: Result<()>)
      modifies this`vault
      ensures vault == if r.Success? then old(vault) - amount else old(vault)
      ensures r == if amount > old(vault) then Failure(TransferFailed) else Success(())
    {
      if amount > vault {
        return Failure(TransferFailed);
      }
      vault := vault - amount;
      return Success(());
    }

    method Borrow(wl: WhitelistAccount, cfg: Config, now: int, amount: u64) returns (r: Result<()>)
      modifies this, wl
      ensures AgreesWithDebt(Spec.Borrow(old(Contents()), old(wl.Contents()), cfg, now, amount), r, Contents(),
                             wl.Contents())
      ensures r.Failure? ==> vault == old(vault)
      ensures old(Valid()) && r.Success? ==>
                && Valid() && vault == old(vault) - amount
                && Outstanding(Contents()) == old(Outstanding(Contents())) + amount
    {
      ghost var before := Contents();
      if amount == 0 {
        return Failure(ZeroAmount);
      }
      if cfg.paused {
        return Failure(ProtocolPaused);
      }
      if scaleFactor == 0 {
        return Failure(InvalidScaleFactor);
      }
      if now >= maturity {
        return Failure(MarketMatured);
      }
      var accrued := AccrueInterest(cfg, now);
      if accrued.Failure? {
        return accrued;
      }
      r := Lend(wl, amount);
      if r.Success? && Inv(before) {
        BorrowOutcome(before, Contents(), old(wl.Contents()), wl.Contents(), cfg, now, amount);
      }
    }

    method Lend(wl: WhitelistAccount, amount: u64) returns (r: Result<()>)
      modifies this, wl
      ensures AgreesWithDebt(Spec.Lend(old(Contents()), old(wl.Contents()), amount), r, Contents(), wl.Contents())
      ensures r.Failure? ==> vault == old(vault)
    {
      if amount > vault {
        return Failure(BorrowAmountTooHigh);
      }
      if !wl.whitelisted {
        return Failure(NotWhitelisted);
      }
      var debt := AddU64(wl.currentBorrowed, amount);
      if debt.Failure? {
        return Failure(debt.error);
      }
      if debt.value > wl.maxBorrowCapacity {
        return Failure(GlobalCapacityExceeded);
      }
      var borrowed := AddU64(totalBorrowed, amount);
      if borrowed.Failure? {
        return Failure(borrowed.error);
      }
      totalBorrowed := borrowed.value;
      wl.currentBorrowed := debt.value;
      r := TransferOut(amount);
    }

    method Repay(wl: WhitelistAccount, cfg: Config, now: int, amount: u64) returns (r: Result<()>)
      modifies this, wl
      ensures AgreesWithDebt(Spec.Repay(old(Contents()), old(wl.Contents()), cfg, now, amount), r, Contents(),
                             wl.Contents())
      ensures r.Failure? ==> vault == old(vault)
      ensures old(Valid()) && r.Success? ==>
                && Valid() && vault == old(vault) + amount
                && Outstanding(Contents()) == old(Outstanding(Contents())) - amount
    {
      ghost var before := Contents();
      if amount == 0 {
        return Failure(ZeroAmount);
      }
      if scaleFactor == 0 {
        return Failure(InvalidScaleFactor);
      }
      if cfg.paused {
        return Failure(ProtocolPaused);
      }
      var accrued := AccrueInterest(cfg, now);
      if accrued.Failure? {
        return accrued;
      }
      r := BookRepayment(wl, amount);
      if r.Success? && Inv(before) {
        RepayOutcome(before, Contents(), old(wl.Contents()), wl.Contents(), cfg, now, amount);
      }
    }

    method BookRepayment(wl: WhitelistAccount, amount: u64) returns (r: Result<()>)
      modifies this, wl
      ensures AgreesWithDebt(AcceptRepayment(old(Contents()), old(wl.Contents()), amount), r, Contents(), wl.Contents())
      ensures r.Failure? ==> vault == old(vault)
    {
      var principalRepaid := SubChecked(totalRepaid, totalInterestRepaid);
      if principalRepaid.Failure? {
        return Failure(principalRepaid.error);
      }
      var outstanding := SubChecked(totalBorrowed, principalRepaid.value);
      if outstanding.Failure? {
        return Failure(outstanding.error);
      }
      if amount > outstanding.value || amount > wl.currentBorrowed {
        return Failure(RepaymentExceedsDebt);
      }
      var repaid := AddU64(totalRepaid, amount);
      if repaid.Failure? {
        return Failure(repaid.error);
      }
      totalRepaid := repaid.value;
      wl.currentBorrowed := wl.currentBorrowed - amount;
      r := TransferIn(amount);
    }

    method RepayInterest(cfg: Config, now: int, amount: u64) returns (r: Result<()>)
      modifies this
      ensures Agrees(Spec.RepayInterest(old(Contents()), cfg, now, amount), r, Contents())
      ensures r.Failure? ==> vault == old(vault)
      ensures old(Valid()) && r.Success? ==>
                && Valid() && vault == old(vault) + amount
                && Outstanding(Contents()) == old(Outstanding(Contents()))
    {
      ghost var before := Contents();
      if amount == 0 {
        return Failure(ZeroAmount);
      }
      if scaleFactor == 0 {
        return Failure(InvalidScaleFactor);
      }
      if cfg.paused {
        return Failure(ProtocolPaused);
      }
      var accrued := AccrueInterest(cfg, now);
      if accrued.Failure? {
        return accrued;
      }
      r := BookInterest(amount);
      if r.Success? && Inv(before) {
        RepayInterestOutcome(before, Contents(), cfg, now, amount);
      }
    }

    method BookInterest(amount: u64) returns (r: Result<()>)
      modifies this
      ensures Agrees(AcceptInterest(old(Contents()), amount), r, Contents())
      ensures r.Failure? ==> vault == old(vault)
    {
      var repaid := AddU64(totalRepaid, amount);
      if repaid.Failure? {
        return Failure(repaid.error);
      }
      totalRepaid := repaid.value;
      var interest := AddU64(totalInterestRepaid, amount);
      if interest.Failure? {
        return Failure(interest.error);
      }
      totalInterestRepaid := interest.value;
      r := TransferIn(amount);
    }

    // ----------------------------------------------------------------
    // Settlement and exit
    // ----------------------------------------------------------------

    /** Locks the settlement factor from the whole vault on the first exit. */
    method LockFactor() returns (r: Result<()>)
      modifies this`settlementFactor
      ensures Agrees(Settle(old(Contents())), r, Contents())
      ensures old(Valid()) && lastAccrual == maturity && r.Success? ==> Valid() && 1 <= settlementFactor
    {
      ghost var before := Contents();
      if settlementFactor == 0 {
        var total := Normalize(scaledSupply, scaleFactor);
        if total.Failure? {
          return Failure(total.error);
        }
        var factor := SettlementFactor(vault, total.value);
        if factor.Failure? {
          return Failure(factor.error);
        }
        settlementFactor := factor.value;
      }
      if Inv(before) && lastAccrual == maturity {
        SettleFacts(before);
      }
      return Success(());
    }

    /** The five-step haircut update; none of its saturating subtractions saturates. */
    method RecordHaircut(l: Lender, normalized: int, payout: int) returns (r: Result<int>)
      requires Valid() && l in book && 1 <= settlementFactor && payout <= U64_MAX
      modifies this`book, this`haircutAccumulator, this`weightSum, this`offsetSum
      ensures match RecordGap(old(Contents()), l, normalized, payout)
              case Success(out) => r == Success(out.1) && Contents() == out.0
              case Failure(e) => r == Failure(e)
    {
      if settlementFactor >= WAD {
        return Success(payout);
      }
      var entitled := ToU64(normalized);
      if entitled.Failure? {
        return Failure(entitled.error);
      }
      var gap := SatSub(entitled.value, payout);
      if gap == 0 {
        return Success(payout);
      }
      HaircutWithinReserve(Contents(), l);
      r := ReAnchor(l, normalized, payout, gap);
    }

    method ReAnchor(l: Lender, normalized: int, payout: int, gap: int) returns (r: Result<int>)
      requires l in book && FitsReserve(book[l], Contents())
      requires settlementFactor < WAD && payout <= U64_MAX && normalized <= U64_MAX
      requires gap == SatSub(normalized, payout) && gap != 0
      modifies this`book, this`haircutAccumulator, this`weightSum, this`offsetSum
      ensures match RecordGap(old(Contents()), l, normalized, payout)
              case Success(out) => r == Success(out.1) && Contents() == out.0
              case Failure(e) => r == Failure(e)
    {
      var p := book[l];
      RecordGapSteps(Contents(), l, normalized, payout);

      // Step 1: take the old contribution out of the aggregate.
      if p.haircutOwed > 0 {
        DropContribution(p);
      }

      // Step 2: rebase the earlier haircut to the current factor.
      var rebased := RebaseOld(p, payout);
      if rebased.Failure? {
        return Failure(rebased.error);
      }

      // Steps 3 to 5: add the new gap to the position, the reserve and the aggregate.
      var added := AddGap(l, rebased.value.0, gap);
      if added.Failure? {
        return Failure(added.error);
      }
      return Success(rebased.value.1);
    }

    /** What is left of a haircut at the current factor, and the payout with what that recovers. */
    method RebaseOld(p: Position, payout: int) returns (r: Result<(int, int)>)
      requires payout <= U64_MAX && 0 <= p.haircutOwed <= haircutAccumulator
      requires 0 < p.haircutOwed ==>
                 var left := RebaseRemainingOwed(p.haircutOwed, p.withdrawalSf, settlementFactor);
                 left.Success? && 0 <= left.value <= p.haircutOwed
      modifies this`haircutAccumulator
      ensures var left := if 0 < p.haircutOwed
                          then RebaseRemainingOwed(p.haircutOwed, p.withdrawalSf, settlementFactor).value
                          else 0;
              var recovered := p.haircutOwed - left;
              && (AddU64(payout, recovered).Failure? ==> r == Failure(MathOverflow))
              && (AddU64(payout, recovered).Success? ==>
                    && r == Success((left, payout + recovered))
                    && haircutAccumulator == old(haircutAccumulator) - recovered)
    {
      var rebased, total := p.haircutOwed, payout;
      if p.haircutOwed > 0 && p.withdrawalSf != settlementFactor {
        rebased := RebaseRemainingOwed(p.haircutOwed, p.withdrawalSf, settlementFactor).value;
        var recovered := SatSub(p.haircutOwed, rebased);
        if recovered > 0 {
          haircutAccumulator := SatSub(haircutAccumulator, recovered);
          var sum := AddU64(total, recovered);
          if sum.Failure? {
            return Failure(sum.error);
          }
          total := sum.value;
        }
      }
      return Success((rebased, total));
    }

    /** Takes a position's contribution out of the aggregate. */
    method DropContribution(p: Position)
      requires PositionContribution(p.haircutOwed, p.withdrawalSf)
               == Success((WeightOf(p), OffsetOf(p)))
      requires WeightOf(p) <= weightSum && OffsetOf(p) <= offsetSum
      modifies this`weightSum, this`offsetSum
      ensures weightSum == old(weightSum) - WeightOf(p) && offsetSum == old(offsetSum) - OffsetOf(p)
    {
      var was := PositionContribution(p.haircutOwed, p.withdrawalSf).value;
      weightSum := SatSub(weightSum, was.0);
      offsetSum := SatSub(offsetSum, was.1);
    }

    /** Anchors `rebased + gap` at the current factor. */
    method AddGap(l: Lender, rebased: int, gap: int) returns (r: Result<()>)
      requires l in book
      modifies this`book, this`haircutAccumulator, this`weightSum, this`offsetSum
      ensures match Spec.AddGap(old(Contents()), l, rebased, gap)
              case Success(m) => r == Success(()) && Contents() == m
              case Failure(e) => r == Failure(e)
    {
      var owed := AddU64(rebased, gap);
      if owed.Failure? {
        return Failure(owed.error);
      }
      book := book[l := book[l].(haircutOwed := owed.value, withdrawalSf := settlementFactor)];
      var accumulator := AddU64(haircutAccumulator, gap);
      if accumulator.Failure? {
        return Failure(accumulator.error);
      }
      haircutAccumulator := accumulator.value;
      r := AddContribution(owed.value);
    }

    /** Puts a position anchored at the current factor into the aggregate. */
    method AddContribution(owed: int) returns (r: Result<()>)
      modifies this`weightSum, this`offsetSum
      ensures var c := PositionContribution(owed, settlementFactor);
              if c.Failure? then r == Failure(c.error)
              else
                var w, o := AddU128(old(weightSum), c.value.0), AddU128(old(offsetSum), c.value.1);
                if w.Failure? then r == Failure(w.error)
                else if o.Failure? then r == Failure(o.error)
                else r == Success(()) && weightSum == w.value && offsetSum == o.value
    {
      var c := PositionContribution(owed, settlementFactor);
      if c.Failure? {
        return Failure(c.error);
      }
      var w := AddU128(weightSum, c.value.0);
      if w.Failure? {
        return Failure(w.error);
      }
      var o := AddU128(offsetSum, c.value.1);
      if o.Failure? {
        return Failure(o.error);
      }
      weightSum, offsetSum := w.value, o.value;
      return Success(());
    }

    /** Takes `scaled` shares from a lender and sends what they are worth. */
    method PayExit(l: Lender, scaled: int, normalized: int, payout: int) returns (r: Result<int>)
      requires Valid() && l in book && 1 <= settlementFactor && payout <= U64_MAX
      modifies this
      ensures match Leave(old(Contents()), l, scaled, normalized, payout)
              case Success(m) => r == Success(old(vault) - m.vault) && Contents() == m
              case Failure(e) => r == Failure(e)
      ensures r.Failure? ==> vault == old(vault)
    {
      var total := RecordHaircut(l, normalized, payout);
      if total.Failure? {
        return total;
      }
      var taken := TakeShares(l, scaled, total.value);
      if taken.Failure? {
        return Failure(taken.error);
      }
      return total;
    }

    method TakeShares(l: Lender, scaled: int, total: int) returns (r: Result<()>)
      modifies this
      ensures Agrees(Spec.TakeShares(old(Contents()), l, scaled, total), r, Contents())
      ensures r.Failure? ==> vault == old(vault)
    {
      var p := PositionOf(book, l);
      var balance := SubChecked(p.scaledBalance, scaled);
      if balance.Failure? {
        return Failure(balance.error);
      }
      var supply := SubChecked(scaledSupply, scaled);
      if supply.Failure? {
        return Failure(supply.error);
      }
      book := book[l := p.(scaledBalance := balance.value)];
      scaledSupply := supply.value;
      r := TransferOut(total);
    }

    method Withdraw(cfg: Config, now: int, l: Lender, scaledAmount: u128, minPayout: u64) returns (r: Result<()>)
      requires Valid()
      modifies this
      ensures Agrees(Spec.Withdraw(old(Contents()), cfg, now, l, scaledAmount, minPayout), r, Contents())
      ensures r.Failure? ==> vault == old(vault)
      ensures r.Success? ==>
                && Valid() && 1 <= settlementFactor
                && minPayout <= old(vault) - vault && 0 < old(vault) - vault
    {
      ghost var before := Contents();
      if cfg.paused {
        return Failure(ProtocolPaused);
      }
      if now < maturity {
        return Failure(NotMatured);
      }
      var accrued := AccrueInterest(cfg, now);
      if accrued.Failure? {
        return accrued;
      }
      if l !in book {
        return Failure(AccountMissing);
      }
      if book[l].scaledBalance == 0 {
        return Failure(NoBalance);
      }
      if settlementFactor == 0 {
        if maturity + SETTLEMENT_GRACE_PERIOD > I64_MAX {
          return Failure(MathOverflow);
        }
        if now < maturity + SETTLEMENT_GRACE_PERIOD {
          return Failure(SettlementGracePeriod);
        }
      }
      var locked := LockFactor();
      if locked.Failure? {
        return locked;
      }
      r := PayWithdrawal(l, scaledAmount, minPayout);
      if r.Success? && Inv(before) {
        WithdrawOutcome(before, Contents(), cfg, now, l, scaledAmount, minPayout);
      }
    }

    /** What `scaled` shares are worth, and what is paid for them at the locked factor. */
    method PriceExit(scaled: int) returns (r: Result<(int, int)>)
      ensures var n := Normalize(scaled, scaleFactor);
              if n.Failure? then r == Failure(n.error)
              else
                var share := Normalize(n.value, settlementFactor);
                if share.Failure? then r == Failure(share.error)
                else if share.value > U64_MAX then r == Failure(MathOverflow)
                else r == Success((n.value, share.value))
    {
      var normalized := Normalize(scaled, scaleFactor);
      if normalized.Failure? {
        return Failure(normalized.error);
      }
      var share := Normalize(normalized.value, settlementFactor);
      if share.Failure? {
        return Failure(share.error);
      }
      var payout := ToU64(share.value);
      if payout.Failure? {
        return Failure(payout.error);
      }
      return Success((normalized.value, payout.value));
    }

    method PayWithdrawal(l: Lender, scaledAmount: u128, minPayout: u64) returns (r: Result<()>)
      requires Valid() && l in book && 1 <= settlementFactor
      modifies this
      ensures Agrees(WithdrawShare(old(Contents()), l, scaledAmount, minPayout), r, Contents())
      ensures r.Failure? ==> vault == old(vault)
    {
      var scaled := scaledAmount;
      if scaled == 0 {
        scaled := book[l].scaledBalance;
      }
      if scaled > book[l].scaledBalance {
        return Failure(InsufficientScaledBalance);
      }
      if scaleFactor == 0 {
        return Failure(InvalidScaleFactor);
      }
      var price := PriceExit(scaled);
      if price.Failure? {
        return Failure(price.error);
      }
      if price.value.1 == 0 {
        return Failure(ZeroPayout);
      }
      if minPayout > 0 && price.value.1 < minPayout {
        return Failure(PayoutBelowMinimum);
      }
      r := PayAndCount(l, scaled, price.value.0, price.value.1);
    }

    /** Pays an exit and takes what was paid off the deposit counter. */
    method PayAndCount(l: Lender, scaled: int, normalized: int, payout: int) returns (r: Result<()>)
      requires Valid() && l in book && 1 <= settlementFactor && payout <= U64_MAX
      modifies this
      ensures match Leave(old(Contents()), l, scaled, normalized, payout)
              case Success(left) =>
                && r == Success(())
                && Contents() == left.(totalDeposited := SatSub(old(totalDeposited), old(vault) - left.vault))
              case Failure(e) => r == Failure(e)
      ensures r.Failure? ==> vault == old(vault)
    {
      var paid := PayExit(l, scaled, normalized, payout);
      if paid.Failure? {
        return Failure(paid.error);
      }
      totalDeposited := SatSub(totalDeposited, paid.value);
      return Success(());
    }

    method ForceClosePosition(cfg: Config, now: int, l: Lender) returns (r: Result<()>)
      requires Valid()
      modifies this
      ensures Agrees(ForceClose(old(Contents()), cfg, now, l), r, Contents())
      ensures r.Failure? ==> vault == old(vault)
      ensures r.Success? ==>
                && Valid() && 1 <= settlementFactor && vault <= old(vault)
                && l in book && book[l].scaledBalance == 0
    {
      ghost var before := Contents();
      if cfg.paused {
        return Failure(ProtocolPaused);
      }
      if now < maturity {
        return Failure(NotMatured);
      }
      if maturity + SETTLEMENT_GRACE_PERIOD > I64_MAX {
        return Failure(MathOverflow);
      }
      if now < maturity + SETTLEMENT_GRACE_PERIOD {
        return Failure(SettlementGracePeriod);
      }
      var accrued := AccrueInterest(cfg, now);
      if accrued.Failure? {
        return accrued;
      }
      if settlementFactor == 0 && scaleFactor == 0 {
        return Failure(InvalidScaleFactor);
      }
      var locked := LockFactor();
      if locked.Failure? {
        return locked;
      }
      r := PayCloseOut(l);
      if r.Success? && Inv(before) {
        ForceCloseOutcome(before, Contents(), cfg, now, l);
      }
    }

    method PayCloseOut(l: Lender) returns (r: Result<()>)
      requires Valid() && 1 <= settlementFactor
      modifies this
      ensures Agrees(CloseOut(old(Contents()), l), r, Contents())
      ensures r.Failure? ==> vault == old(vault)
    {
      if l !in book {
        return Failure(AccountMissing);
      }
      var scaled := book[l].scaledBalance;
      if scaled == 0 {
        return Failure(NoBalance);
      }
      if scaleFactor == 0 {
        return Failure(InvalidScaleFactor);
      }
      var price := PriceExit(scaled);
      if price.Failure? {
        return Failure(price.error);
      }
      var paid := PayExit(l, scaled, price.value.0, price.value.1);
      if paid.Failure? {
        return Failure(paid.error);
      }
      return Success(());
    }

    // ----------------------------------------------------------------
    // Recovery
    // ----------------------------------------------------------------

    method ClaimHaircut(cfg: Config, l: Lender) returns (r: Result<()>)
      requires Valid()
      modifies this
      ensures Agrees(Spec.ClaimHaircut(old(Contents()), cfg, l), r, Contents())
      ensures r.Failure? ==> vault == old(vault)
      ensures r.Success? ==>
                && Valid() && settlementFactor == old(settlementFactor)
                && l in old(book) && 0 < old(vault) - vault <= old(book)[l].haircutOwed
    {
      ghost var before := Contents();
      if cfg.paused {
        return Failure(ProtocolPaused);
      }
      if settlementFactor == 0 {
        return Failure(NotSettled);
      }
      r := PayHaircut(l);
      if r.Success? && Inv(before) {
        ClaimOutcome(before, Contents(), l);
      }
    }

    method ForceClaimHaircut(cfg: Config, now: int, l: Lender) returns (r: Result<()>)
      requires Valid()
      modifies this
      ensures Agrees(Spec.ForceClaimHaircut(old(Contents()), cfg, now, l), r, Contents())
      ensures r.Failure? ==> vault == old(vault)
      ensures r.Success? ==>
                && Valid() && settlementFactor == old(settlementFactor)
                && l in old(book) && 0 < old(vault) - vault <= old(book)[l].haircutOwed
    {
      ghost var before := Contents();
      if cfg.paused {
        return Failure(ProtocolPaused);
      }
      if now < maturity {
        return Failure(NotMatured);
      }
      if maturity + SETTLEMENT_GRACE_PERIOD > I64_MAX {
        return Failure(MathOverflow);
      }
      if now < maturity + SETTLEMENT_GRACE_PERIOD {
        return Failure(SettlementGracePeriod);
      }
      if settlementFactor == 0 {
        return Failure(NotSettled);
      }
      r := PayHaircut(l);
      if r.Success? && Inv(before) {
        ClaimOutcome(before, Contents(), l);
      }
    }

    /** Pays the exact claim of a position, capped at the vault's surplus, and re-anchors it. */
    method PayHaircut(l: Lender) returns (r: Result<()>)
      requires Valid() && 1 <= settlementFactor
      modifies this
      ensures Agrees(PayClaim(old(Contents()), l), r, Contents())
      ensures r.Failure? ==> vault == old(vault)
    {
      if l !in book {
        return Failure(AccountMissing);
      }
      HaircutWithinReserve(Contents(), l);
      r := PayClaimable(l);
    }

    method PayClaimable(l: Lender) returns (r: Result<()>)
      requires l in book && FitsReserve(book[l], Contents())
      requires weightSum <= U128_MAX && offsetSum <= U128_MAX
      modifies this
      ensures Agrees(PayClaim(old(Contents()), l), r, Contents())
      ensures r.Failure? ==> vault == old(vault)
    {
      var p := book[l];
      if p.haircutOwed == 0 {
        return Failure(NoHaircutToClaim);
      }
      if settlementFactor <= p.withdrawalSf {
        return Failure(SettlementNotImproved);
      }
      var exact := ClaimableExact(p.haircutOwed, p.withdrawalSf, settlementFactor);
      if exact.Failure? {
        return Failure(exact.error);
      }
      var reserved := RemainingObligations(Contents());
      if reserved.Failure? {
        return Failure(reserved.error);
      }
      var claimable := exact.value;
      var available := SatSub(vault, reserved.value);
      if claimable > available {
        claimable := available;
      }
      if claimable == 0 {
        return Failure(ZeroPayout);
      }
      r := SettleClaim(l, claimable);
    }

    /** Pays `claimable` of a haircut. */
    method SettleClaim(l: Lender, claimable: int) returns (r: Result<()>)
      requires l in book && FitsReserve(book[l], Contents())
      requires weightSum <= U128_MAX && offsetSum <= U128_MAX
      modifies this
      ensures Agrees(SpendClaim(old(Contents()), l, claimable), r, Contents())
      ensures r.Failure? ==> vault == old(vault)
    {
      r := ReduceHaircut(l, claimable);
      if r.Success? {
        r := TransferOut(claimable);
      }
    }

    /** Takes `claimable` off a haircut: out of the aggregate, the position and the reserve, and
        what is left back in at the current factor. */
    method ReduceHaircut(l: Lender, claimable: int) returns (r: Result<()>)
      requires l in book && FitsReserve(book[l], Contents())
      requires weightSum <= U128_MAX && offsetSum <= U128_MAX
      modifies this`book, this`haircutAccumulator, this`weightSum, this`offsetSum
      ensures Agrees(Spec.ReduceHaircut(old(Contents()), l, claimable), r, Contents())
    {
      var p := book[l];
      DropContribution(p);
      var owed := SubChecked(p.haircutOwed, claimable);
      if owed.Failure? {
        return Failure(owed.error);
      }
      book := book[l := p.(haircutOwed := owed.value, withdrawalSf := if owed.value > 0 then settlementFactor else 0)];
      haircutAccumulator := haircutAccumulator - claimable;   // the reserve contains the whole haircut
      if owed.value > 0 {
        var added := AddContribution(owed.value);
        return added;
      }
      return Success(());
    }

    method ReSettle(cfg: Config, now: int) returns (r: Result<()>)
      modifies this
      ensures Agrees(Spec.ReSettle(old(Contents()), cfg, now), r, Contents())
      ensures vault == old(vault) && book == old(book)
      ensures old(Valid()) && r.Success? ==> Valid() && old(settlementFactor) < settlementFactor <= WAD
    {
      ghost var before := Contents();
      if settlementFactor == 0 {
        return Failure(NotSettled);
      }
      if cfg.paused {
        return Failure(ProtocolPaused);
      }
      var accrued := AccrueInterest(cfg, now);
      if accrued.Failure? {
        return accrued;
      }
      if scaleFactor == 0 {
        return Failure(InvalidScaleFactor);
      }
      var total := Normalize(scaledSupply, scaleFactor);
      if total.Failure? {
        return Failure(total.error);
      }
      var factor := ComputeResettleFactor(vault, total.value, weightSum, offsetSum);
      if factor.Failure? {
        return Failure(factor.error);
      }
      if factor.value <= settlementFactor {
        return Failure(SettlementNotImproved);
      }
      settlementFactor := factor.value;
      r := Success(());
      if Inv(before) {
        ReSettleOutcome(before, Contents(), cfg, now);
      }
    }

    // ----------------------------------------------------------------
    // Sweeps and account closing
    // ----------------------------------------------------------------

    method CollectFees(cfg: Config, now: int) returns (r: Result<()>)
      modifies this
      ensures Agrees(Spec.CollectFees(old(Contents()), cfg, now), r, Contents())
      ensures r.Failure? ==> vault == old(vault)
      ensures old(Valid()) && r.Success? ==>
                && Valid() && vault < old(vault)
                && RemainingClaims(Contents()) + haircutAccumulator <= vault
    {
      ghost var before := Contents();
      if cfg.paused {
        return Failure(ProtocolPaused);
      }
      if scaleFactor == 0 {
        return Failure(InvalidScaleFactor);
      }
      if 0 < settlementFactor < WAD {
        return Failure(FeeCollectionDuringDistress);
      }
      if 0 < scaledSupply && settlementFactor != WAD {
        return Failure(LendersPendingWithdrawals);
      }
      var accrued := AccrueInterest(cfg, now);
      if accrued.Failure? {
        return accrued;
      }
      r := SweepFees();
      if r.Success? && Inv(before) {
        CollectFeesOutcome(before, Contents(), cfg, now);
      }
    }

    method SweepFees() returns (r: Result<()>)
      modifies this`fees, this`vault
      ensures Agrees(TakeFees(old(Contents())), r, Contents())
      ensures r.Failure? ==> vault == old(vault)
    {
      if fees == 0 {
        return Failure(NoFeesToCollect);
      }
      var withdrawable := if fees <= vault then fees else vault;
      var safeMax := vault;
      if 0 < scaledSupply {
        var total := Normalize(scaledSupply, scaleFactor);
        if total.Failure? {
          return Failure(total.error);
        }
        var claims := ToU64(total.value);
        if claims.Failure? {
          return Failure(claims.error);
        }
        safeMax := SatSub(vault, claims.value);
      }
      safeMax := SatSub(safeMax, haircutAccumulator);
      withdrawable := if withdrawable <= safeMax then withdrawable else safeMax;
      if withdrawable == 0 {
        return Failure(NoFeesToCollect);
      }
      fees := fees - withdrawable;
      vault := vault - withdrawable;
      return Success(());
    }

    method WithdrawExcess(wl: WhitelistAccount, cfg: Config, now: int) returns (r: Result<()>)
      modifies this`vault
      ensures Agrees(Spec.WithdrawExcess(old(Contents()), wl.Contents(), cfg, now), r, Contents())
      ensures r.Failure? ==> vault == old(vault)
      ensures old(Valid()) && r.Success? ==> Valid() && vault == haircutAccumulator
    {
      ghost var before := Contents();
      if cfg.paused {
        return Failure(ProtocolPaused);
      }
      if !wl.whitelisted {
        return Failure(NotWhitelisted);
      }
      if now < maturity {
        return Failure(NotMatured);
      }
      if 0 < scaledSupply {
        return Failure(LendersPendingWithdrawals);
      }
      if settlementFactor == 0 {
        return Failure(SettlementNotComplete);
      }
      if settlementFactor < WAD {
        return Failure(FeeCollectionDuringDistress);
      }
      if 0 < fees {
        return Failure(FeesNotCollected);
      }
      var excess := SatSub(vault, haircutAccumulator);
      if excess == 0 {
        return Failure(NoExcessToWithdraw);
      }
      vault := vault - excess;
      r := Success(());
      if Inv(before) {
        WithdrawExcessKeepsInv(before, wl.Contents(), cfg, now);
      }
    }

    method CloseLenderPosition(cfg: Config, l: Lender) returns (r: Result<()>)
      modifies this`book
      ensures Agrees(ClosePosition(old(Contents()), cfg, l), r, Contents())
      ensures r.Failure? ==> book == old(book)
      ensures old(Valid()) && r.Success? ==> Valid() && l !in book
    {
      ghost var before := Contents();
      if cfg.paused {
        return Failure(ProtocolPaused);
      }
      if l !in book {
        return Failure(AccountMissing);
      }
      if book[l].scaledBalance != 0 {
        return Failure(PositionNotEmpty);
      }
      if book[l].haircutOwed != 0 {
        return Failure(PositionNotEmpty);
      }
      book := book - {l};
      r := Success(());
      if Inv(before) {
        ClosePositionKeepsInv(before, cfg, l);
      }
    }

    // ----------------------------------------------------------------
    // Transactions
    // ----------------------------------------------------------------

    method Dispatch(c: Call, wl: WhitelistAccount) returns (r: Result<()>)
      requires Valid() && c.wl == wl.Contents()
      modifies this, wl
      ensures AgreesWithDebt(Process(old(Contents()), c), r, Contents(), wl.Contents())
    {
      ghost var before := Contents();
      match c.ix
      case IxBorrow(amount) => r := Borrow(wl, c.cfg, c.now, amount);
      case IxRepay(amount) => r := Repay(wl, c.cfg, c.now, amount);
      case IxDeposit(l, amount) =>
        r := Deposit(c.cfg, c.now, l, amount);
        Lifted(Spec.Deposit(before, c.cfg, c.now, l, amount), r, Contents(), c.wl);
      case IxRepayInterest(amount) =>
        r := RepayInterest(c.cfg, c.now, amount);
        Lifted(Spec.RepayInterest(before, c.cfg, c.now, amount), r, Contents(), c.wl);
      case IxDonate(amount) =>
        r := TransferIn(amount);
        Lifted(Donate(before, amount), r, Contents(), c.wl);
      case IxWithdraw(l, x, minPayout) =>
        r := Withdraw(c.cfg, c.now, l, x, minPayout);
        Lifted(Spec.Withdraw(before, c.cfg, c.now, l, x, minPayout), r, Contents(), c.wl);
      case IxForceClose(l) =>
        r := ForceClosePosition(c.cfg, c.now, l);
        Lifted(ForceClose(before, c.cfg, c.now, l), r, Contents(), c.wl);
      case IxClaimHaircut(l) =>
        r := ClaimHaircut(c.cfg, l);
        Lifted(Spec.ClaimHaircut(before, c.cfg, l), r, Contents(), c.wl);
      case IxForceClaimHaircut(l) =>
        r := ForceClaimHaircut(c.cfg, c.now, l);
        Lifted(Spec.ForceClaimHaircut(before, c.cfg, c.now, l), r, Contents(), c.wl);
      case IxReSettle =>
        r := ReSettle(c.cfg, c.now);
        Lifted(Spec.ReSettle(before, c.cfg, c.now), r, Contents(), c.wl);
      case IxCollectFees =>
        r := CollectFees(c.cfg, c.now);
        Lifted(Spec.CollectFees(before, c.cfg, c.now), r, Contents(), c.wl);
      case IxWithdrawExcess =>
        r := WithdrawExcess(wl, c.cfg, c.now);
        Lifted(Spec.WithdrawExcess(before, c.wl, c.cfg, c.now), r, Contents(), c.wl);
      case IxClosePosition(l) =>
        r := CloseLenderPosition(c.cfg, l);
        Lifted(ClosePosition(before, c.cfg, l), r, Contents(), c.wl);
    }

    /** One transaction: succeeds with the instruction's effect, or leaves both accounts alone. */
    method Execute(c: Call, wl: WhitelistAccount) returns (r: Result<()>)
      requires Valid() && c.wl == wl.Contents()
      modifies this, wl
      ensures Valid()
      ensures Contents() == Step(old(Contents()), c)
      ensures wl.Contents() == match Process(old(Contents()), c) case Success(out) => out.1 case Failure(_) => c.wl
      ensures r.Success? <==> Process(old(Contents()), c).Success?
      ensures r.Failure? ==> Process(old(Contents()), c) == Failure(r.error)
    {
      var before := Contents();
      r := Dispatch(c, wl);
      if r.Failure? {
        Restore(before);
        wl.whitelisted := c.wl.whitelisted;
        wl.maxBorrowCapacity := c.wl.maxBorrowCapacity;
        wl.currentBorrowed := c.wl.currentBorrowed;
      } else {
        ProcessKeepsInv(before, c);
      }
    }
  }

  lemma Lifted(spec: Result<MarketState>, r: Result<()>, after: MarketState, wl: Whitelist)
    requires Agrees(spec, r, after)
    ensures AgreesWithDebt(WithWhitelist(spec, wl), r, after, wl)
  {
  }

  // What a handler that succeeds leaves behind.

  lemma DepositOutcome(m: MarketState, m': MarketState, cfg: Config, now: int, l: Lender, amount: u64)
    requires Inv(m) && Spec.Deposit(m, cfg, now, l, amount) == Success(m')
    ensures Inv(m') && m'.vault == m.vault + amount && m'.settlementFactor == 0
  {
    DepositKeepsInv(m, cfg, now, l, amount);
    AccrueFacts(m, cfg, now);
  }

  lemma BorrowOutcome(m: MarketState, m': MarketState, wl: Whitelist, wl': Whitelist, cfg: Config, now: int,
                      amount: u64)
    requires Inv(m) && Spec.Borrow(m, wl, cfg, now, amount) == Success((m', wl'))
    ensures Inv(m') && m'.vault == m.vault - amount && Outstanding(m') == Outstanding(m) + amount
  {
    BorrowKeepsInv(m, wl, cfg, now, amount);
    AccrueFacts(m, cfg, now);
  }

  lemma RepayOutcome(m: MarketState, m': MarketState, wl: Whitelist, wl': Whitelist, cfg: Config, now: int, amount: u64)
    requires Inv(m) && Spec.Repay(m, wl, cfg, now, amount) == Success((m', wl'))
    ensures Inv(m') && m'.vault == m.vault + amount && Outstanding(m') == Outstanding(m) - amount
  {
    RepayKeepsInv(m, wl, cfg, now, amount);
    AccrueFacts(m, cfg, now);
  }

  lemma RepayInterestOutcome(m: MarketState, m': MarketState, cfg: Config, now: int, amount: u64)
    requires Inv(m) && Spec.RepayInterest(m, cfg, now, amount) == Success(m')
    ensures Inv(m') && m'.vault == m.vault + amount && Outstanding(m') == Outstanding(m)
  {
    RepayInterestKeepsInv(m, cfg, now, amount);
    AccrueFacts(m, cfg, now);
  }

  lemma WithdrawOutcome(m: MarketState, m': MarketState, cfg: Config, now: int, l: Lender, scaledAmount: u128,
                        minPayout: u64)
    requires Inv(m) && Spec.Withdraw(m, cfg, now, l, scaledAmount, minPayout) == Success(m')
    ensures Inv(m') && 1 <= m'.settlementFactor && minPayout <= m.vault - m'.vault && 0 < m.vault - m'.vault
  {
    WithdrawKeepsInv(m, cfg, now, l, scaledAmount, minPayout);
    var e := WithdrawIsExit(m, cfg, now, l, scaledAmount, minPayout);
  }

  lemma ForceCloseOutcome(m: MarketState, m': MarketState, cfg: Config, now: int, l: Lender)
    requires Inv(m) && ForceClose(m, cfg, now, l) == Success(m')
    ensures Inv(m') && 1 <= m'.settlementFactor && m'.vault <= m.vault
    ensures l in m'.book && m'.book[l].scaledBalance == 0
  {
    ForceCloseKeepsInv(m, cfg, now, l);
    var e := ForceCloseIsExit(m, cfg, now, l);
  }

  lemma ClaimOutcome(m: MarketState, m': MarketState, l: Lender)
    requires Inv(m) && 1 <= m.settlementFactor && PayClaim(m, l) == Success(m')
    ensures Inv(m') && m'.settlementFactor == m.settlementFactor
    ensures l in m.book && 0 < m.vault - m'.vault <= m.book[l].haircutOwed
  {
    PayClaimKeepsInv(m, l);
    PayClaimFacts(m, l);
  }

  lemma ReSettleOutcome(m: MarketState, m': MarketState, cfg: Config, now: int)
    requires Inv(m) && Spec.ReSettle(m, cfg, now) == Success(m')
    ensures Inv(m') && m.settlementFactor < m'.settlementFactor <= WAD
  {
    ReSettleKeepsInv(m, cfg, now);
    ReSettleFacts(m, cfg, now);
  }

  lemma CollectFeesOutcome(m: MarketState, m': MarketState, cfg: Config, now: int)
    requires Inv(m) && Spec.CollectFees(m, cfg, now) == Success(m')
    ensures Inv(m') && m'.vault < m.vault && RemainingClaims(m') + m'.haircutAccumulator <= m'.vault
  {
    CollectFeesKeepsInv(m, cfg, now);
    CollectFeesTakes(m, cfg, now);
    AccrueFacts(m, cfg, now);
  }

  lemma AccrualIsValid(m: MarketState, m': MarketState, cfg: Config, now: int)
    requires Inv(m) && Accrue(m, cfg, now) == Success(m')
    ensures Inv(m') && (m.maturity <= now ==> m'.lastAccrual == m.maturity)
  {
    AccrueFacts(m, cfg, now);
  }

  /** The market's aggregates and reserve contain all of this position's haircut. */
  predicate FitsReserve(p: Position, m: MarketState) {
    && PositionContribution(p.haircutOwed, p.withdrawalSf) == Success((WeightOf(p), OffsetOf(p)))
    && 0 <= WeightOf(p) <= m.weightSum && 0 <= OffsetOf(p) <= m.offsetSum
    && 0 <= p.haircutOwed <= m.haircutAccumulator
    && (0 < p.haircutOwed ==>
          && RebaseRemainingOwed(p.haircutOwed, p.withdrawalSf, m.settlementFactor).Success?
          && 0 <= RebaseRemainingOwed(p.haircutOwed, p.withdrawalSf, m.settlementFactor).value <= p.haircutOwed)
  }

  /** The three stages of recording a gap. */
  lemma RecordGapSteps(m: MarketState, l: Lender, normalized: int, payout: int)
    requires l in m.book && FitsReserve(m.book[l], m)
    requires m.settlementFactor < WAD && normalized <= U64_MAX && SatSub(normalized, payout) != 0
    ensures var p := m.book[l];
            var left := if 0 < p.haircutOwed
                        then RebaseRemainingOwed(p.haircutOwed, p.withdrawalSf, m.settlementFactor).value else 0;
            var recovered := p.haircutOwed - left;
            var rest := m.(haircutAccumulator := m.haircutAccumulator - recovered,
                           weightSum := m.weightSum - WeightOf(p),
                           offsetSum := m.offsetSum - OffsetOf(p));
            RecordGap(m, l, normalized, payout)
            == if payout + recovered > U64_MAX then Failure(MathOverflow)
               else match Spec.AddGap(rest, l, left, SatSub(normalized, payout))
                    case Success(r) => Success((r, payout + recovered))
                    case Failure(e) => Failure(e)
  {
  }

  /** In a valid market no haircut update can saturate. */
  lemma HaircutWithinReserve(m: MarketState, l: Lender)
    requires Inv(m) && l in m.book
    ensures FitsReserve(m.book[l], m)
  {
    var p := m.book[l];
    ShareOfAggregates(m, l);
    ContributionIs(p.haircutOwed, p.withdrawalSf);
    if 0 < p.haircutOwed {
      ClaimsDoNotOverflow(p.haircutOwed, p.withdrawalSf, m.settlementFactor);
    }
  }
}
