/** The life of one market in which a lender leaves in distress and is made whole later: the
    states that the other modules speak of are reached. */
module Episode {
  import opened Outcomes
  import opened FixedPoint
  import opened Interest
  import opened Haircuts
  import opened Positions
  import opened Markets

  const HALF: int := WAD / 2
  const THREE_QUARTERS: int := 3 * WAD / 4

  /** An interest-free market in which half of a deposit of `2 * n` is out on loan. */
  function Lent(start: int, cap: u64, n: u64): MarketState {
    MarketState(0, start + 100, cap, n, 2 * n, WAD, 0, 2 * n, n, 0, 0, start, 0, 0, 0, 0,
                map[1 := Position(2 * n, 0, 0)])
  }

  /** The lender has left with half of it and the vault is empty. */
  function Distressed(start: int, cap: u64, n: u64): MarketState {
    Lent(start, cap, n).(vault := 0, scaledSupply := 0, totalDeposited := n, lastAccrual := start + 100,
                         settlementFactor := HALF, haircutAccumulator := n, weightSum := 2 * n, offsetSum := n,
                         book := map[1 := Position(0, n, HALF)])
  }

  /** The borrower has repaid and the lender has claimed the rest. */
  function Recovered(start: int, cap: u64, n: u64): MarketState {
    Distressed(start, cap, n).(totalRepaid := n, settlementFactor := WAD, haircutAccumulator := 0,
                               weightSum := 0, offsetSum := 0, book := map[1 := EMPTY])
  }

  lemma NothingToAccrue(m: MarketState, cfg: Config, now: int)
    requires Min(now, m.maturity) == m.lastAccrual
    ensures Accrue(m, cfg, now) == Success(m)
  {
  }

  lemma Whole(x: int)
    requires 0 <= x * WAD <= U128_MAX
    ensures Normalize(x, WAD) == Success(x)
  {
    DivIs(x * WAD, WAD, x);
  }

  lemma Lending(cfg: Config, wl: Whitelist, start: int, cap: u64, n: u64)
    requires !cfg.paused && wl.whitelisted && 0 <= start <= 1_000_000 && 1 <= n && 2 * n <= cap
    requires 0 <= wl.currentBorrowed && wl.currentBorrowed + n <= wl.maxBorrowCapacity <= U64_MAX
    ensures var m := CreateMarket(cfg, wl, 0, start + 100, cap, start);
            && m.Success?
            && var d := Deposit(m.value, cfg, start, 1, 2 * n);
               && d.Success?
               && Borrow(d.value, wl, cfg, start, n)
                  == Success((Lent(start, cap, n), wl.(currentBorrowed := wl.currentBorrowed + n)))
  {
    var m := CreateMarket(cfg, wl, 0, start + 100, cap, start).value;
    NothingToAccrue(m, cfg, start);
    DivIs(2 * n * WAD, WAD, 2 * n);
    var d := Deposit(m, cfg, start, 1, 2 * n).value;
    assert d == Lent(start, cap, n).(vault := 2 * n, totalBorrowed := 0);
    NothingToAccrue(d, cfg, start);
  }

  lemma NoInterest(m: MarketState, cfg: Config, now: int)
    requires m.annualBps == 0 && m.lastAccrual + 100 == m.maturity <= now
    requires m.scaleFactor == WAD && m.fees == 0 && 0 <= m.scaledSupply * WAD <= U128_MAX
    ensures Accrue(m, cfg, now) == Success(m.(lastAccrual := m.maturity))
  {
    var e := m.maturity - m.lastAccrual;
    assert SubDayRate(m.annualBps, e) == 0 && DailyRate(m.annualBps) == 0;
    Whole(WAD);
    assert Growth(m.annualBps, e) == Success(WAD);
    Whole(m.scaledSupply);
    if 0 < cfg.feeRateBps {
      assert FeeFor(m.scaledSupply, m.scaleFactor, WAD, cfg.feeRateBps) == Success(0);
    }
  }

  lemma HalfRecords(n: u64)
    requires 1 <= n
    ensures PositionContribution(n, HALF) == Success((2 * n, n))
    ensures ClaimableExact(n, HALF, WAD) == Success(n)
  {
    DivIs(n * WAD + (WAD - HALF) - 1, WAD - HALF, 2 * n);
    DivIs(2 * n * HALF, WAD, n);
    DivIs(n * (WAD - HALF), WAD - HALF, n);
  }

  /** The market as the exit finds it: interest has ended and the factor is locked at one half. */
  function Settled(start: int, cap: u64, n: u64): MarketState {
    Lent(start, cap, n).(lastAccrual := start + 100, settlementFactor := HALF)
  }

  lemma SharePaid(start: int, cap: u64, n: u64)
    requires 1 <= n && 2 * n <= cap
    ensures WithdrawShare(Settled(start, cap, n), 1, 0, 0) == Success(Distressed(start, cap, n))
  {
    var s := Settled(start, cap, n);
    Whole(2 * n);
    DivIs(2 * n * HALF, WAD, n);
    assert Normalize(2 * n, HALF) == Success(n);
    HalfRecorded(start, cap, n);
    var r := RecordGap(s, 1, 2 * n, n).value.0;
    assert r.book[1 := Position(0, n, HALF)] == map[1 := Position(0, n, HALF)];
    assert TakeShares(r, 1, 2 * n, n)
        == Success(r.(vault := 0, scaledSupply := 0, book := map[1 := Position(0, n, HALF)]));
  }

  lemma HalfRecorded(start: int, cap: u64, n: u64)
    requires 1 <= n && 2 * n <= cap
    ensures RecordGap(Settled(start, cap, n), 1, 2 * n, n)
         == Success((Settled(start, cap, n).(haircutAccumulator := n, weightSum := 2 * n, offsetSum := n,
                                             book := map[1 := Position(2 * n, n, HALF)]), n))
  {
    HalfRecords(n);
    var s := Settled(start, cap, n);
    assert s.book[1 := Position(2 * n, n, HALF)] == map[1 := Position(2 * n, n, HALF)];
  }

  lemma Leaving(cfg: Config, now: int, start: int, cap: u64, n: u64)
    requires !cfg.paused && 0 <= start <= 1_000_000 && 1 <= n && 2 * n <= cap && start + 400 <= now
    ensures Withdraw(Lent(start, cap, n), cfg, now, 1, 0, 0) == Success(Distressed(start, cap, n))
  {
    var m := Lent(start, cap, n);
    NoInterest(m, cfg, now);
    var a := m.(lastAccrual := m.maturity);
    Whole(2 * n);
    DivIs(n * WAD, 2 * n, HALF);
    assert Settle(a) == Success(Settled(start, cap, n));
    SharePaid(start, cap, n);
  }

  lemma Recovering(cfg: Config, wl: Whitelist, now: int, start: int, cap: u64, n: u64)
    requires !cfg.paused && 0 <= start <= 1_000_000 && 1 <= n && 2 * n <= cap && start + 400 <= now
    requires n <= wl.currentBorrowed
    ensures var d := Distressed(start, cap, n);
            var repaid := d.(vault := n, totalRepaid := n);
            && Repay(d, wl, cfg, now, n) == Success((repaid, wl.(currentBorrowed := wl.currentBorrowed - n)))
            && ReSettle(repaid, cfg, now) == Success(repaid.(settlementFactor := WAD))
            && ClaimHaircut(repaid.(settlementFactor := WAD), cfg, 1) == Success(Recovered(start, cap, n))
  {
    var d := Distressed(start, cap, n);
    var repaid := d.(vault := n, totalRepaid := n);
    NothingToAccrue(d, cfg, now);
    NothingToAccrue(repaid, cfg, now);
    Whole(0);
    DivIs(2 * n * WAD, 2 * n, WAD);
    HalfRecords(n);
    assert repaid.book[1 := EMPTY] == map[1 := EMPTY];
  }

  /** A deposit, a loan of half of it and an exit past the grace period end in distress. */
  lemma LenderLeaves(cfg: Config, wl: Whitelist, now: int, start: int, cap: u64, n: u64)
    requires !cfg.paused && wl.whitelisted && 0 <= start <= 1_000_000 && 1 <= n && 2 * n <= cap && start + 400 <= now
    requires 0 <= wl.currentBorrowed && wl.currentBorrowed + n <= wl.maxBorrowCapacity <= U64_MAX
    ensures CreateMarket(cfg, wl, 0, start + 100, cap, start).Success?
    ensures Run(CreateMarket(cfg, wl, 0, start + 100, cap, start).value,
                [Call(cfg, start, wl, IxDeposit(1, 2 * n)), Call(cfg, start, wl, IxBorrow(n)),
                 Call(cfg, now, wl, IxWithdraw(1, 0, 0))])
         == Distressed(start, cap, n)
  {
    Lending(cfg, wl, start, cap, n);
    Leaving(cfg, now, start, cap, n);
    RunOfThree(CreateMarket(cfg, wl, 0, start + 100, cap, start).value,
               Call(cfg, start, wl, IxDeposit(1, 2 * n)), Call(cfg, start, wl, IxBorrow(n)),
               Call(cfg, now, wl, IxWithdraw(1, 0, 0)));
  }

  /** A repayment, a re-settlement and a claim then pay all that is owed. */
  lemma LenderReturns(cfg: Config, wl: Whitelist, now: int, start: int, cap: u64, n: u64)
    requires !cfg.paused && 0 <= start <= 1_000_000 && 1 <= n && 2 * n <= cap && start + 400 <= now
    requires 0 <= wl.currentBorrowed
    ensures Run(Distressed(start, cap, n),
                [Call(cfg, now, wl.(currentBorrowed := wl.currentBorrowed + n), IxRepay(n)),
                 Call(cfg, now, wl, IxReSettle), Call(cfg, now, wl, IxClaimHaircut(1))])
         == Recovered(start, cap, n)
  {
    var indebted := wl.(currentBorrowed := wl.currentBorrowed + n);
    Recovering(cfg, indebted, now, start, cap, n);
    RunOfThree(Distressed(start, cap, n), Call(cfg, now, indebted, IxRepay(n)),
               Call(cfg, now, wl, IxReSettle), Call(cfg, now, wl, IxClaimHaircut(1)));
  }

  /** Half of the `2 * h` owed has been repaid and claimed at three quarters. */
  function PartlyRecovered(start: int, cap: u64, h: u64): MarketState
    requires 2 * h <= U64_MAX
  {
    Distressed(start, cap, 2 * h).(totalRepaid := h, settlementFactor := THREE_QUARTERS, haircutAccumulator := h,
                                   weightSum := 4 * h, offsetSum := 3 * h,
                                   book := map[1 := Position(0, h, THREE_QUARTERS)])
  }

  lemma QuartersRecord(h: u64)
    requires 1 <= h && 2 * h <= U64_MAX
    ensures PositionContribution(h, THREE_QUARTERS) == Success((4 * h, 3 * h))
    ensures ClaimableExact(2 * h, HALF, THREE_QUARTERS) == Success(h)
  {
    var quarter := 250_000_000_000_000_000;
    assert WAD - THREE_QUARTERS == quarter && WAD - HALF == 2 * quarter && THREE_QUARTERS - HALF == quarter;
    assert h * WAD == quarter * (4 * h) && 4 * h * THREE_QUARTERS == WAD * (3 * h);
    DivIs(h * WAD + quarter - 1, quarter, 4 * h);
    DivIs(4 * h * THREE_QUARTERS, WAD, 3 * h);
    DivIs(2 * h * quarter, 2 * quarter, h);
  }

  lemma RepayingHalf(cfg: Config, wl: Whitelist, now: int, start: int, cap: u64, h: u64)
    requires !cfg.paused && 0 <= start && 1 <= h && 4 * h <= cap && start + 400 <= now && h <= wl.currentBorrowed
    ensures Repay(Distressed(start, cap, 2 * h), wl, cfg, now, h)
         == Success((Distressed(start, cap, 2 * h).(vault := h, totalRepaid := h),
                     wl.(currentBorrowed := wl.currentBorrowed - h)))
  {
    NothingToAccrue(Distressed(start, cap, 2 * h), cfg, now);
  }

  /** The market after the repayment of half and a re-settlement. */
  function RaisedByHalf(start: int, cap: u64, h: u64): MarketState
    requires 2 * h <= U64_MAX
  {
    Distressed(start, cap, 2 * h).(vault := h, totalRepaid := h, settlementFactor := THREE_QUARTERS)
  }

  lemma RaisingByHalf(cfg: Config, now: int, start: int, cap: u64, h: u64)
    requires !cfg.paused && 0 <= start && 1 <= h && 4 * h <= cap && start + 400 <= now
    ensures ReSettle(Distressed(start, cap, 2 * h).(vault := h, totalRepaid := h), cfg, now)
         == Success(RaisedByHalf(start, cap, h))
  {
    NothingToAccrue(Distressed(start, cap, 2 * h).(vault := h, totalRepaid := h), cfg, now);
    Whole(0);
    assert 3 * h * WAD == (4 * h) * THREE_QUARTERS;
    DivIs(3 * h * WAD, 4 * h, THREE_QUARTERS);
  }

  lemma ClaimingHalf(start: int, cap: u64, h: u64)
    requires 1 <= h && 4 * h <= cap
    ensures PayClaim(RaisedByHalf(start, cap, h), 1) == Success(PartlyRecovered(start, cap, h))
  {
    HalfRecords(2 * h);
    QuartersRecord(h);
    var book := RaisedByHalf(start, cap, h).book;
    assert book[1 := Position(0, h, THREE_QUARTERS)] == map[1 := Position(0, h, THREE_QUARTERS)];
  }

  lemma RunToHalf(cfg: Config, wl: Whitelist, now: int, start: int, cap: u64, h: u64)
    requires !cfg.paused && 0 <= start && 1 <= h && 4 * h <= cap && start + 400 <= now && h <= wl.currentBorrowed
    ensures Run(Distressed(start, cap, 2 * h), [Call(cfg, now, wl, IxRepay(h)), Call(cfg, now, wl, IxReSettle)])
         == RaisedByHalf(start, cap, h)
  {
    RepayingHalf(cfg, wl, now, start, cap, h);
    RaisingByHalf(cfg, now, start, cap, h);
    RunOfTwo(Distressed(start, cap, 2 * h), Call(cfg, now, wl, IxRepay(h)), Call(cfg, now, wl, IxReSettle));
  }

  /** Past the grace period a claim and a forced claim are the same payment. */
  lemma BothClaims(m: MarketState, cfg: Config, now: int, l: Lender)
    requires !cfg.paused && m.settlementFactor != 0
    requires m.maturity + SETTLEMENT_GRACE_PERIOD <= I64_MAX && m.maturity + SETTLEMENT_GRACE_PERIOD <= now
    ensures ClaimHaircut(m, cfg, l) == PayClaim(m, l) == ForceClaimHaircut(m, cfg, now, l)
  {
  }

  lemma ClaimsAtHalf(cfg: Config, now: int, start: int, cap: u64, h: u64)
    requires !cfg.paused && 0 <= start <= 1_000_000 && 1 <= h && 4 * h <= cap && start + 400 <= now
    ensures ClaimHaircut(RaisedByHalf(start, cap, h), cfg, 1) == Success(PartlyRecovered(start, cap, h))
    ensures ForceClaimHaircut(RaisedByHalf(start, cap, h), cfg, now, 1) == Success(PartlyRecovered(start, cap, h))
  {
    var m := RaisedByHalf(start, cap, h);
    ClaimingHalf(start, cap, h);
    BothClaims(m, cfg, now, 1);
  }

  /** A repayment of half of what is owed raises the factor to three quarters, and a claim there,
      forced or not, pays that half. */
  lemma LenderReturnsForHalf(cfg: Config, wl: Whitelist, now: int, start: int, cap: u64, h: u64)
    requires !cfg.paused && 0 <= start <= 1_000_000 && 1 <= h && 4 * h <= cap && start + 400 <= now
    requires h <= wl.currentBorrowed
    ensures var raised := Run(Distressed(start, cap, 2 * h),
                              [Call(cfg, now, wl, IxRepay(h)), Call(cfg, now, wl, IxReSettle)]);
            && raised == RaisedByHalf(start, cap, h)
            && ClaimHaircut(raised, cfg, 1) == Success(PartlyRecovered(start, cap, h))
            && ForceClaimHaircut(raised, cfg, now, 1) == Success(PartlyRecovered(start, cap, h))
  {
    RunToHalf(cfg, wl, now, start, cap, h);
    ClaimsAtHalf(cfg, now, start, cap, h);
  }

  lemma RunOfTwo(m: MarketState, a: Call, b: Call)
    ensures Run(m, [a, b]) == Step(Step(m, a), b)
  {
    assert [a, b][1..] == [b] && [b][1..] == [];
    assert Run(Step(m, a), [b]) == Run(Step(Step(m, a), b), []);
  }

  lemma RunOfThree(m: MarketState, a: Call, b: Call, c: Call)
    ensures Run(m, [a, b, c]) == Step(Step(Step(m, a), b), c)
  {
    assert [a, b, c][1..] == [b, c] && [b, c][1..] == [c] && [c][1..] == [];
    assert Run(Step(m, a), [b, c]) == Run(Step(Step(m, a), b), [c]);
    assert Run(Step(Step(m, a), b), [c]) == Run(Step(Step(Step(m, a), b), c), []);
  }
}
