/** Three runs, from creation, in which rounding leaves lenders short: the allowances of the
    solvency theorem are reached, and a full repayment need not recover anything. */
module Shortages {
  import opened Outcomes
  import opened FixedPoint
  import opened Haircuts
  import opened Sums
  import opened Positions
  import opened Markets
  import opened Histories
  import opened Solvency
  import opened Episode

  // ------------------------------------------------------------------
  // Steps at par
  // ------------------------------------------------------------------

  /** A deposit into a market that has not earned interest yet. */
  lemma DepositAtPar(m: MarketState, cfg: Config, now: int, l: Lender, amount: u64)
    requires !cfg.paused && now == m.lastAccrual < m.maturity && m.scaleFactor == WAD && 0 < amount
    requires 0 <= m.totalDeposited && m.totalDeposited + amount <= m.maxTotalSupply <= U64_MAX
    requires m.scaledSupply + amount <= U64_MAX && m.vault + amount <= U64_MAX
    requires PositionOf(m.book, l).scaledBalance + amount <= U64_MAX
    ensures var p := PositionOf(m.book, l);
            Deposit(m, cfg, now, l, amount) == Success(m.(
              book := m.book[l := p.(scaledBalance := p.scaledBalance + amount)],
              scaledSupply := m.scaledSupply + amount,
              totalDeposited := m.totalDeposited + amount,
              vault := m.vault + amount))
  {
    NothingToAccrue(m, cfg, now);
    DivIs(amount * WAD, WAD, amount);
  }

  /** What an exit of `x` units paid `p` of them leaves, when `left` remains of the earlier haircut. */
  function AfterExit(m: MarketState, l: Lender, x: int, p: int, left: int, was: (int, int), becomes: (int, int))
    : MarketState
    requires l in m.book
  {
    var q := m.book[l];
    var recovered := q.haircutOwed - left;
    m.(book := m.book[l := Position(q.scaledBalance - x, left + x - p, m.settlementFactor)],
       haircutAccumulator := m.haircutAccumulator - recovered + (x - p),
       weightSum := m.weightSum - was.0 + becomes.0,
       offsetSum := m.offsetSum - was.1 + becomes.1,
       scaledSupply := m.scaledSupply - x,
       vault := m.vault - (p + recovered))
  }

  lemma LeavesAtPar(m: MarketState, l: Lender, x: int, p: int, left: int, was: (int, int), becomes: (int, int))
    requires 1 <= m.settlementFactor < WAD && l in m.book && 0 <= p < x <= U64_MAX
    requires x <= m.book[l].scaledBalance && x <= m.scaledSupply
    requires PositionContribution(m.book[l].haircutOwed, m.book[l].withdrawalSf) == Success(was)
    requires if m.book[l].haircutOwed > 0
             then RebaseRemainingOwed(m.book[l].haircutOwed, m.book[l].withdrawalSf, m.settlementFactor)
                 == Success(left)
             else left == 0
    requires 0 <= left && left + x - p <= U64_MAX && p + m.book[l].haircutOwed - left <= U64_MAX
    requires PositionContribution(left + x - p, m.settlementFactor) == Success(becomes)
    requires m.haircutAccumulator - (m.book[l].haircutOwed - left) + (x - p) <= U64_MAX
    requires m.weightSum - was.0 + becomes.0 <= U128_MAX && m.offsetSum - was.1 + becomes.1 <= U128_MAX
    ensures Leave(m, l, x, x, p)
         == if p + m.book[l].haircutOwed - left > m.vault then Failure(TransferFailed)
            else Success(AfterExit(m, l, x, p, left, was, becomes))
  {
    var r := RecordGap(m, l, x, p);
    assert r.Success? && r.value.1 == p + m.book[l].haircutOwed - left;
    assert r.value.0.book[l := Position(m.book[l].scaledBalance - x, left + x - p, m.settlementFactor)]
        == m.book[l := Position(m.book[l].scaledBalance - x, left + x - p, m.settlementFactor)];
  }

  /** `h` stands at `m` with `k` rebasing exits since the last re-settlement and no clamp outstanding. */
  predicate Tallied(h: History, m: MarketState, k: int) {
    h.market == m && h.ledger.lossyRebases == k && h.ledger.clampShortfall == 0
  }

  lemma TallyCall(h: History, c: Call, m: MarketState, m': MarketState, wl: Whitelist, k: int)
    requires Tallied(h, m, k) && Process(m, c) == Success((m', wl)) && IsEntryOrInflow(c.ix)
    ensures Tallied(Advance(h, c), m', k)
  {
  }

  lemma TallyReSettle(h: History, c: Call, m: MarketState, m': MarketState, wl: Whitelist, k: int)
    requires Tallied(h, m, k) && Process(m, c) == Success((m', wl)) && c.ix.IxReSettle?
    ensures Tallied(Advance(h, c), m', 0)
  {
  }

  /** Re-anchoring the position's haircut at `s` rounds. */
  predicate Lossy(p: Position, s: int) {
    0 < p.haircutOwed && p.withdrawalSf != s && Rounds(p.haircutOwed, p.withdrawalSf, s)
  }

  /** What an exit of `x` units at par adds to the ledger. */
  lemma ExitTally(g: Ledger, m: MarketState, m': MarketState, l: Lender, x: int)
    requires m'.scaleFactor == WAD && 0 < x && m'.settlementFactor < WAD
    requires PositionOf(m.book, l).scaledBalance - PositionOf(m'.book, l).scaledBalance == x
    requires m.settlementFactor == 0 ==> m.scaledSupply * m'.settlementFactor / WAD <= m.vault
    ensures var p, g' := PositionOf(m.book, l), RecordExit(g, m, m', l);
            && g'.lossyRebases == g.lossyRebases + (if Lossy(p, m'.settlementFactor) then 1 else 0)
            && g'.clampShortfall == g.clampShortfall
  {
    DivIs(x * WAD, WAD, x);
    DivIs(m.scaledSupply * WAD, WAD, m.scaledSupply);
  }

  lemma TallyWithdraw(h: History, c: Call, m: MarketState, m': MarketState, k: int, x: int)
    requires Tallied(h, m, k) && c.ix.IxWithdraw?
    requires Withdraw(m, c.cfg, c.now, c.ix.lender, c.ix.scaledAmount, c.ix.minPayout) == Success(m')
    requires m'.scaleFactor == WAD && 0 < x && m'.settlementFactor < WAD
    requires PositionOf(m.book, c.ix.lender).scaledBalance - PositionOf(m'.book, c.ix.lender).scaledBalance == x
    requires m.settlementFactor == 0 ==> m.scaledSupply * m'.settlementFactor / WAD <= m.vault
    ensures var p := PositionOf(m.book, c.ix.lender);
            Tallied(Advance(h, c), m', k + if Lossy(p, m'.settlementFactor) then 1 else 0)
  {
    ExitTally(h.ledger, m, m', c.ix.lender, x);
    assert Process(m, c) == Success((m', c.wl));
  }

  lemma TraceOfFour(h: History, a: Call, b: Call, c: Call, d: Call)
    ensures Trace(h, [a, b, c, d]) == Advance(Advance(Advance(Advance(h, a), b), c), d)
  {
    assert [a, b, c, d][1..] == [b, c, d] && [b, c, d][1..] == [c, d];
    TraceOfTwo(Advance(Advance(h, a), b), c, d);
    assert Trace(h, [a, b, c, d]) == Trace(Advance(h, a), [b, c, d]) == Trace(Advance(Advance(h, a), b), [c, d]);
  }

  lemma TraceOfTwo(h: History, a: Call, b: Call)
    ensures Trace(h, [a, b]) == Advance(Advance(h, a), b)
  {
    assert [a, b][1..] == [b] && [b][1..] == [];
    assert Trace(h, [a, b]) == Trace(Advance(h, a), [b]) == Trace(Advance(Advance(h, a), b), []);
  }

  // ------------------------------------------------------------------
  // Two rebasing exits
  // ------------------------------------------------------------------

  function Trio(a: Position, b: Position, c: Position): Book {
    map[1 := a, 2 := b, 3 := c]
  }

  lemma TrioWrites(a: Position, b: Position, c: Position, p: Position)
    ensures Trio(a, b, c)[1 := p] == Trio(p, b, c)
    ensures Trio(a, b, c)[2 := p] == Trio(a, p, c)
  {
  }

  /** Deposits of 6, 6 and 4 at par, half of them out on loan. */
  function Opened(start: int, cap: u64): MarketState {
    MarketState(0, start + 100, cap, 8, 16, WAD, 0, 16, 8, 0, 0, start, 0, 0, 0, 0,
                Trio(Position(6, 0, 0), Position(6, 0, 0), Position(4, 0, 0)))
  }

  /** Settled at one half; each of the first two lenders still has to exit with 2 units. */
  function Halved(start: int, cap: u64): MarketState {
    Opened(start, cap).(lastAccrual := start + 100, settlementFactor := HALF)
  }

  function OneOut(start: int, cap: u64): MarketState {
    Halved(start, cap).(vault := 7, scaledSupply := 14, totalDeposited := 15, haircutAccumulator := 1, weightSum := 2,
                        offsetSum := 1, book := Trio(Position(4, 1, HALF), Position(6, 0, 0), Position(4, 0, 0)))
  }

  function TwoOut(start: int, cap: u64): MarketState {
    Halved(start, cap).(vault := 6, scaledSupply := 12, totalDeposited := 14, haircutAccumulator := 2, weightSum := 4,
                        offsetSum := 2, book := Trio(Position(4, 1, HALF), Position(4, 1, HALF), Position(4, 0, 0)))
  }

  /** After a repayment of 4 and a re-settlement. */
  function Raised(start: int, cap: u64): MarketState {
    TwoOut(start, cap).(vault := 10, totalRepaid := 4, settlementFactor := THREE_QUARTERS)
  }

  function OneRebased(start: int, cap: u64): MarketState {
    Raised(start, cap).(vault := 6, scaledSupply := 8, totalDeposited := 10, weightSum := 6, offsetSum := 4,
                        book := Trio(Position(0, 1, THREE_QUARTERS), Position(4, 1, HALF), Position(4, 0, 0)))
  }

  /** Two lenders have left with the unit that belongs to the third. */
  function Short(start: int, cap: u64): MarketState {
    Raised(start, cap).(vault := 2, scaledSupply := 4, totalDeposited := 6, weightSum := 8, offsetSum := 6,
                        book := Trio(Position(0, 1, THREE_QUARTERS), Position(0, 1, THREE_QUARTERS), Position(4, 0, 0)))
  }

  lemma QuarterRecords()
    ensures PositionContribution(1, THREE_QUARTERS) == Success((4, 3))
    ensures RebaseRemainingOwed(1, HALF, THREE_QUARTERS) == Success(0)
    ensures Normalize(2, HALF) == Success(1)
    ensures Normalize(4, THREE_QUARTERS) == Success(3)
  {
    DivIs(1 * WAD + (WAD - THREE_QUARTERS) - 1, WAD - THREE_QUARTERS, 4);
    DivIs(4 * THREE_QUARTERS, WAD, 3);
    DivIs(1 * (WAD - THREE_QUARTERS), WAD - HALF, 0);
    DivIs(2 * HALF, WAD, 1);
  }

  lemma FirstExits(start: int, cap: u64)
    ensures WithdrawShare(Halved(start, cap), 1, 2, 0) == Success(OneOut(start, cap))
    ensures WithdrawShare(OneOut(start, cap), 2, 2, 0) == Success(TwoOut(start, cap))
  {
    QuarterRecords();
    HalfRecords(1);
    Whole(2);
    var m, m' := Halved(start, cap), OneOut(start, cap);
    LeavesAtPar(m, 1, 2, 1, 0, (0, 0), (2, 1));
    TrioWrites(Position(6, 0, 0), Position(6, 0, 0), Position(4, 0, 0), Position(4, 1, HALF));
    LeavesAtPar(m', 2, 2, 1, 0, (0, 0), (2, 1));
    TrioWrites(Position(4, 1, HALF), Position(6, 0, 0), Position(4, 0, 0), Position(4, 1, HALF));
  }

  lemma FirstRebase(start: int, cap: u64)
    ensures WithdrawShare(Raised(start, cap), 1, 0, 0) == Success(OneRebased(start, cap))
  {
    QuarterRecords();
    HalfRecords(1);
    Whole(4);
    LeavesAtPar(Raised(start, cap), 1, 4, 3, 0, (2, 1), (4, 3));
    TrioWrites(Position(4, 1, HALF), Position(4, 1, HALF), Position(4, 0, 0), Position(0, 1, THREE_QUARTERS));
  }

  lemma SecondRebase(start: int, cap: u64)
    ensures WithdrawShare(OneRebased(start, cap), 2, 0, 0) == Success(Short(start, cap))
  {
    QuarterRecords();
    HalfRecords(1);
    Whole(4);
    LeavesAtPar(OneRebased(start, cap), 2, 4, 3, 0, (2, 1), (4, 3));
    TrioWrites(Position(0, 1, THREE_QUARTERS), Position(4, 1, HALF), Position(4, 0, 0), Position(0, 1, THREE_QUARTERS));
  }

  lemma ThirdIsShort(start: int, cap: u64)
    ensures WithdrawShare(Short(start, cap), 3, 0, 0) == Failure(TransferFailed)
  {
    QuarterRecords();
    Whole(4);
    LeavesAtPar(Short(start, cap), 3, 4, 3, 0, (0, 0), (4, 3));
  }

  /** Each call of the story, in order. */
  lemma Openings(created: MarketState, cfg: Config, wl: Whitelist, start: int, cap: u64)
    requires !cfg.paused && wl.whitelisted && 0 <= start <= 1_000_000 && 16 <= cap
    requires 0 <= wl.currentBorrowed && wl.currentBorrowed + 8 <= wl.maxBorrowCapacity <= U64_MAX
    requires CreateMarket(cfg, wl, 0, start + 100, cap, start) == Success(created)
    ensures var m1 := created.(vault := 6, scaledSupply := 6, totalDeposited := 6, book := map[1 := Position(6, 0, 0)]);
            var m2 := created.(vault := 12, scaledSupply := 12, totalDeposited := 12,
                               book := map[1 := Position(6, 0, 0), 2 := Position(6, 0, 0)]);
            var m3 := Opened(start, cap).(vault := 16, totalBorrowed := 0);
            && Deposit(created, cfg, start, 1, 6) == Success(m1)
            && Deposit(m1, cfg, start, 2, 6) == Success(m2)
            && Deposit(m2, cfg, start, 3, 4) == Success(m3)
            && Borrow(m3, wl, cfg, start, 8)
               == Success((Opened(start, cap), wl.(currentBorrowed := wl.currentBorrowed + 8)))
  {
    DepositAtPar(created, cfg, start, 1, 6);
    var m1 := Deposit(created, cfg, start, 1, 6).value;
    assert m1.book == map[1 := Position(6, 0, 0)];
    DepositAtPar(m1, cfg, start, 2, 6);
    var m2 := Deposit(m1, cfg, start, 2, 6).value;
    assert m2.book == map[1 := Position(6, 0, 0), 2 := Position(6, 0, 0)];
    DepositAtPar(m2, cfg, start, 3, 4);
    var m3 := Deposit(m2, cfg, start, 3, 4).value;
    assert m3.book == Opened(start, cap).book;
    NothingToAccrue(m3, cfg, start);
  }

  lemma FirstOut(cfg: Config, now: int, start: int, cap: u64)
    requires !cfg.paused && 0 <= start <= 1_000_000 && start + 400 <= now
    ensures Withdraw(Opened(start, cap), cfg, now, 1, 2, 0) == Success(OneOut(start, cap))
  {
    NoInterest(Opened(start, cap), cfg, now);
    Whole(16);
    DivIs(8 * WAD, 16, HALF);
    assert Settle(Opened(start, cap).(lastAccrual := start + 100)) == Success(Halved(start, cap));
    FirstExits(start, cap);
  }

  lemma SecondOut(cfg: Config, now: int, start: int, cap: u64)
    requires !cfg.paused && 0 <= start && start + 400 <= now
    ensures Withdraw(OneOut(start, cap), cfg, now, 2, 2, 0) == Success(TwoOut(start, cap))
  {
    FirstExits(start, cap);
    NothingToAccrue(OneOut(start, cap), cfg, now);
  }

  lemma Raising(cfg: Config, wl: Whitelist, now: int, start: int, cap: u64)
    requires !cfg.paused && 0 <= start && start + 400 <= now && 4 <= wl.currentBorrowed
    ensures Repay(TwoOut(start, cap), wl, cfg, now, 4)
         == Success((TwoOut(start, cap).(vault := 10, totalRepaid := 4),
                     wl.(currentBorrowed := wl.currentBorrowed - 4)))
    ensures ReSettle(TwoOut(start, cap).(vault := 10, totalRepaid := 4), cfg, now) == Success(Raised(start, cap))
  {
    NothingToAccrue(TwoOut(start, cap), cfg, now);
    NothingToAccrue(TwoOut(start, cap).(vault := 10, totalRepaid := 4), cfg, now);
    Whole(12);
    DivIs(12 * WAD, 16, THREE_QUARTERS);
  }

  lemma Rebasing(cfg: Config, now: int, start: int, cap: u64)
    requires !cfg.paused && 0 <= start && start + 400 <= now
    ensures Withdraw(Raised(start, cap), cfg, now, 1, 0, 0) == Success(OneRebased(start, cap))
    ensures Withdraw(OneRebased(start, cap), cfg, now, 2, 0, 0) == Success(Short(start, cap))
    ensures Withdraw(Short(start, cap), cfg, now, 3, 0, 0) == Failure(TransferFailed)
  {
    FirstRebase(start, cap);
    SecondRebase(start, cap);
    ThirdIsShort(start, cap);
    NothingToAccrue(Raised(start, cap), cfg, now);
    NothingToAccrue(OneRebased(start, cap), cfg, now);
    NothingToAccrue(Short(start, cap), cfg, now);
  }

  lemma ShortByOne(start: int, cap: u64)
    ensures SolventUpTo(Short(start, cap), 1) && !SolventUpTo(Short(start, cap), 0)
  {
    var m := Short(start, cap);
    DivIs(4 * WAD, WAD, 4);
    DivIs(4 * THREE_QUARTERS, WAD, 3);
    SumZero(m.book, ClaimAt(m.settlementFactor));
  }

  /** Three deposits and a loan. */
  function Opening(cfg: Config, wl: Whitelist, start: int): seq<Call> {
    [Call(cfg, start, wl, IxDeposit(1, 6)), Call(cfg, start, wl, IxDeposit(2, 6)),
     Call(cfg, start, wl, IxDeposit(3, 4)), Call(cfg, start, wl, IxBorrow(8))]
  }

  /** Two partial exits in distress. */
  function Distress(cfg: Config, wl: Whitelist, now: int): seq<Call> {
    [Call(cfg, now, wl, IxWithdraw(1, 2, 0)), Call(cfg, now, wl, IxWithdraw(2, 2, 0))]
  }

  function Recovery(cfg: Config, wl: Whitelist, now: int): seq<Call> {
    [Call(cfg, now, wl, IxRepay(4)), Call(cfg, now, wl, IxReSettle)]
  }

  /** The two lenders leave with the rest. */
  function LastExits(cfg: Config, wl: Whitelist, now: int): seq<Call> {
    [Call(cfg, now, wl, IxWithdraw(1, 0, 0)), Call(cfg, now, wl, IxWithdraw(2, 0, 0))]
  }

  lemma OpeningTallied(created: MarketState, cfg: Config, wl: Whitelist, start: int, cap: u64)
    requires !cfg.paused && wl.whitelisted && 0 <= start <= 1_000_000 && 16 <= cap
    requires 0 <= wl.currentBorrowed && wl.currentBorrowed + 8 <= wl.maxBorrowCapacity <= U64_MAX
    requires CreateMarket(cfg, wl, 0, start + 100, cap, start) == Success(created)
    ensures Tallied(Trace(History(created, NEW_LEDGER), Opening(cfg, wl, start)), Opened(start, cap), 0)
  {
    Openings(created, cfg, wl, start, cap);
    var h0, calls := History(created, NEW_LEDGER), Opening(cfg, wl, start);
    var m1 := Deposit(created, cfg, start, 1, 6).value;
    var m2 := Deposit(m1, cfg, start, 2, 6).value;
    var m3 := Deposit(m2, cfg, start, 3, 4).value;
    TallyCall(h0, calls[0], created, m1, wl, 0);
    var h1 := Advance(h0, calls[0]);
    TallyCall(h1, calls[1], m1, m2, wl, 0);
    var h2 := Advance(h1, calls[1]);
    TallyCall(h2, calls[2], m2, m3, wl, 0);
    var h3 := Advance(h2, calls[2]);
    TallyCall(h3, calls[3], m3, Opened(start, cap), wl.(currentBorrowed := wl.currentBorrowed + 8), 0);
    TraceOfFour(h0, calls[0], calls[1], calls[2], calls[3]);
  }

  lemma FirstOutTallied(h: History, cfg: Config, wl: Whitelist, now: int, start: int, cap: u64)
    requires !cfg.paused && 0 <= start <= 1_000_000 && start + 400 <= now
    requires Tallied(h, Opened(start, cap), 0)
    ensures Tallied(Advance(h, Call(cfg, now, wl, IxWithdraw(1, 2, 0))), OneOut(start, cap), 0)
  {
    FirstOut(cfg, now, start, cap);
    DivIs(16 * HALF, WAD, 8);
    TallyWithdraw(h, Call(cfg, now, wl, IxWithdraw(1, 2, 0)), Opened(start, cap), OneOut(start, cap), 0, 2);
  }

  lemma SecondOutTallied(h: History, cfg: Config, wl: Whitelist, now: int, start: int, cap: u64)
    requires !cfg.paused && 0 <= start && start + 400 <= now
    requires Tallied(h, OneOut(start, cap), 0)
    ensures Tallied(Advance(h, Call(cfg, now, wl, IxWithdraw(2, 2, 0))), TwoOut(start, cap), 0)
  {
    SecondOut(cfg, now, start, cap);
    TallyWithdraw(h, Call(cfg, now, wl, IxWithdraw(2, 2, 0)), OneOut(start, cap), TwoOut(start, cap), 0, 2);
  }

  lemma DistressTallied(h: History, cfg: Config, wl: Whitelist, now: int, start: int, cap: u64)
    requires !cfg.paused && 0 <= start <= 1_000_000 && start + 400 <= now
    requires Tallied(h, Opened(start, cap), 0)
    ensures Tallied(Trace(h, Distress(cfg, wl, now)), TwoOut(start, cap), 0)
  {
    var first, second := Call(cfg, now, wl, IxWithdraw(1, 2, 0)), Call(cfg, now, wl, IxWithdraw(2, 2, 0));
    FirstOutTallied(h, cfg, wl, now, start, cap);
    SecondOutTallied(Advance(h, first), cfg, wl, now, start, cap);
    TraceOfTwo(h, first, second);
  }

  lemma RecoveryTallied(h: History, cfg: Config, wl: Whitelist, now: int, start: int, cap: u64)
    requires !cfg.paused && 0 <= start && start + 400 <= now && 4 <= wl.currentBorrowed
    requires Tallied(h, TwoOut(start, cap), 0)
    ensures Tallied(Trace(h, Recovery(cfg, wl, now)), Raised(start, cap), 0)
  {
    var repay, resettle := Call(cfg, now, wl, IxRepay(4)), Call(cfg, now, wl, IxReSettle);
    var repaid := TwoOut(start, cap).(vault := 10, totalRepaid := 4);
    Raising(cfg, wl, now, start, cap);
    TallyCall(h, repay, TwoOut(start, cap), repaid, wl.(currentBorrowed := wl.currentBorrowed - 4), 0);
    TallyReSettle(Advance(h, repay), resettle, repaid, Raised(start, cap), wl, 0);
    TraceOfTwo(h, repay, resettle);
  }

  lemma RebasingRounds()
    ensures Lossy(Position(4, 1, HALF), THREE_QUARTERS)
  {
    assert 1 * (WAD - THREE_QUARTERS) == 250_000_000_000_000_000 && WAD - HALF == 500_000_000_000_000_000;
  }

  lemma OneRebaseTallied(h: History, cfg: Config, wl: Whitelist, now: int, start: int, cap: u64)
    requires !cfg.paused && 0 <= start && start + 400 <= now
    requires Tallied(h, Raised(start, cap), 0)
    ensures Tallied(Advance(h, Call(cfg, now, wl, IxWithdraw(1, 0, 0))), OneRebased(start, cap), 1)
  {
    Rebasing(cfg, now, start, cap);
    RebasingRounds();
    TallyWithdraw(h, Call(cfg, now, wl, IxWithdraw(1, 0, 0)), Raised(start, cap), OneRebased(start, cap), 0, 4);
  }

  lemma TwoRebasesTallied(h: History, cfg: Config, wl: Whitelist, now: int, start: int, cap: u64)
    requires !cfg.paused && 0 <= start && start + 400 <= now
    requires Tallied(h, OneRebased(start, cap), 1)
    ensures Tallied(Advance(h, Call(cfg, now, wl, IxWithdraw(2, 0, 0))), Short(start, cap), 2)
  {
    Rebasing(cfg, now, start, cap);
    RebasingRounds();
    TallyWithdraw(h, Call(cfg, now, wl, IxWithdraw(2, 0, 0)), OneRebased(start, cap), Short(start, cap), 1, 4);
  }

  lemma LastExitsTallied(h: History, cfg: Config, wl: Whitelist, now: int, start: int, cap: u64)
    requires !cfg.paused && 0 <= start && start + 400 <= now
    requires Tallied(h, Raised(start, cap), 0)
    ensures Tallied(Trace(h, LastExits(cfg, wl, now)), Short(start, cap), 2)
  {
    var first, second := Call(cfg, now, wl, IxWithdraw(1, 0, 0)), Call(cfg, now, wl, IxWithdraw(2, 0, 0));
    OneRebaseTallied(h, cfg, wl, now, start, cap);
    TwoRebasesTallied(Advance(h, first), cfg, wl, now, start, cap);
    TraceOfTwo(h, first, second);
  }

  /** From creation, two rebasing exits can take the unit that a third lender is due: its exit then
      fails for want of tokens, and the allowance of one unit for all but one of them is exact. */
  lemma TwoRebasesLeaveOneShort(created: MarketState, cfg: Config, wl: Whitelist, now: int, start: int, cap: u64)
    requires !cfg.paused && wl.whitelisted && 0 <= start <= 1_000_000 && 16 <= cap && start + 400 <= now
    requires 0 <= wl.currentBorrowed && wl.currentBorrowed + 8 <= wl.maxBorrowCapacity <= U64_MAX
    requires CreateMarket(cfg, wl, 0, start + 100, cap, start) == Success(created)
    ensures var indebted := wl.(currentBorrowed := wl.currentBorrowed + 8);
            var h := Trace(History(created, NEW_LEDGER),
                           Opening(cfg, wl, start) + Distress(cfg, indebted, now) + Recovery(cfg, indebted, now)
                           + LastExits(cfg, indebted, now));
            && h.ledger.lossyRebases == 2 && h.ledger.clampShortfall == 0
            && !SolventUpTo(h.market, 0) && SolventUpTo(h.market, 1)
            && Withdraw(h.market, cfg, now, 3, 0, 0) == Failure(TransferFailed)
  {
    var indebted := wl.(currentBorrowed := wl.currentBorrowed + 8);
    var h0, a, b := History(created, NEW_LEDGER), Opening(cfg, wl, start), Distress(cfg, indebted, now);
    var c, d := Recovery(cfg, indebted, now), LastExits(cfg, indebted, now);
    TraceAppends(h0, a, b);
    TraceAppends(h0, a + b, c);
    TraceAppends(h0, a + b + c, d);
    OpeningTallied(created, cfg, wl, start, cap);
    DistressTallied(Trace(h0, a), cfg, indebted, now, start, cap);
    RecoveryTallied(Trace(h0, a + b), cfg, indebted, now, start, cap);
    LastExitsTallied(Trace(h0, a + b + c), cfg, indebted, now, start, cap);
    Rebasing(cfg, now, start, cap);
    ShortByOne(start, cap);
  }

  // ------------------------------------------------------------------
  // A dust position that settles an empty market
  // ------------------------------------------------------------------

  const LARGE: int := 2 * WAD

  /** Deposits of two WAD and of one unit, all of it out on loan. */
  function Emptied(start: int, cap: u64): MarketState {
    MarketState(0, start + 100, cap, 0, LARGE + 1, WAD, 0, LARGE + 1, LARGE + 1, 0, 0, start, 0, 0, 0, 0,
                map[1 := Position(LARGE, 0, 0), 2 := Position(1, 0, 0)])
  }

  /** The empty market settled at factor 1. */
  function AtOne(start: int, cap: u64): MarketState {
    Emptied(start, cap).(lastAccrual := start + 100, settlementFactor := 1)
  }

  /** The dust position is closed for nothing. */
  function Clamped(start: int, cap: u64): MarketState {
    AtOne(start, cap).(scaledSupply := LARGE, haircutAccumulator := 1, weightSum := 2, offsetSum := 0,
                       book := map[1 := Position(LARGE, 0, 0), 2 := Position(0, 1, 1)])
  }

  lemma DustRecords()
    ensures PositionContribution(1, 1) == Success((2, 0))
    ensures PositionContribution(LARGE - 2, 1) == Success((LARGE, 2))
  {
    DivIs(1 * WAD + (WAD - 1) - 1, WAD - 1, 2);
    DivIs(2 * 1, WAD, 0);
    DivIs((LARGE - 2) * WAD + (WAD - 1) - 1, WAD - 1, LARGE);
    DivIs(LARGE * 1, WAD, 2);
  }

  lemma DustCloses(start: int, cap: u64)
    ensures CloseOut(AtOne(start, cap), 2) == Success(Clamped(start, cap))
    ensures CloseOut(Clamped(start, cap), 1) == Failure(TransferFailed)
    ensures WithdrawShare(Clamped(start, cap), 1, 0, 0) == Failure(TransferFailed)
  {
    DustRecords();
    Whole(1);
    Whole(LARGE);
    DivIs(1 * 1, WAD, 0);
    DivIs(LARGE * 1, WAD, 2);
    LeavesAtPar(AtOne(start, cap), 2, 1, 0, 0, (0, 0), (2, 0));
    assert AtOne(start, cap).book[2 := Position(0, 1, 1)] == Clamped(start, cap).book;
    LeavesAtPar(Clamped(start, cap), 1, LARGE, 2, 0, (0, 0), (LARGE, 2));
  }

  lemma DustSettles(cfg: Config, now: int, start: int, cap: u64)
    requires !cfg.paused && 0 <= start <= 1_000_000 && start + 400 <= now
    ensures ForceClose(Emptied(start, cap), cfg, now, 2) == Success(Clamped(start, cap))
    ensures ForceClose(Clamped(start, cap), cfg, now, 1) == Failure(TransferFailed)
    ensures Withdraw(Clamped(start, cap), cfg, now, 1, 0, 0) == Failure(TransferFailed)
  {
    NoInterest(Emptied(start, cap), cfg, now);
    Whole(LARGE + 1);
    DivIs(0 * WAD, LARGE + 1, 0);
    assert Settle(Emptied(start, cap).(lastAccrual := start + 100)) == Success(AtOne(start, cap));
    DustCloses(start, cap);
    NothingToAccrue(Clamped(start, cap), cfg, now);
  }

  lemma DustTally(g: Ledger, start: int, cap: u64)
    ensures RecordExit(g, Emptied(start, cap), Clamped(start, cap), 2).clampShortfall == g.clampShortfall + 2
  {
    DivIs((LARGE + 1) * WAD, WAD, LARGE + 1);
    DivIs((LARGE + 1) * 1, WAD, 2);
  }

  lemma ShortByTwo(start: int, cap: u64)
    ensures SolventUpTo(Clamped(start, cap), 2) && !SolventUpTo(Clamped(start, cap), 1)
  {
    var m := Clamped(start, cap);
    DivIs(LARGE * WAD, WAD, LARGE);
    DivIs(LARGE * 1, WAD, 2);
    SumZero(m.book, ClaimAt(m.settlementFactor));
  }

  lemma Emptying(created: MarketState, cfg: Config, wl: Whitelist, start: int, cap: u64)
    requires !cfg.paused && wl.whitelisted && 0 <= start <= 1_000_000 && LARGE + 1 <= cap
    requires 0 <= wl.currentBorrowed && wl.currentBorrowed + LARGE + 1 <= wl.maxBorrowCapacity <= U64_MAX
    requires CreateMarket(cfg, wl, 0, start + 100, cap, start) == Success(created)
    ensures var m1 := created.(vault := LARGE, scaledSupply := LARGE, totalDeposited := LARGE,
                               book := map[1 := Position(LARGE, 0, 0)]);
            var m2 := Emptied(start, cap).(vault := LARGE + 1, totalBorrowed := 0);
            && Deposit(created, cfg, start, 1, LARGE) == Success(m1)
            && Deposit(m1, cfg, start, 2, 1) == Success(m2)
            && Borrow(m2, wl, cfg, start, LARGE + 1)
               == Success((Emptied(start, cap), wl.(currentBorrowed := wl.currentBorrowed + LARGE + 1)))
  {
    DepositAtPar(created, cfg, start, 1, LARGE);
    var m1 := Deposit(created, cfg, start, 1, LARGE).value;
    assert m1.book == map[1 := Position(LARGE, 0, 0)];
    DepositAtPar(m1, cfg, start, 2, 1);
    var m2 := Deposit(m1, cfg, start, 2, 1).value;
    assert m2.book == Emptied(start, cap).book;
    NothingToAccrue(m2, cfg, start);
  }

  lemma EmptyingTallied(created: MarketState, cfg: Config, wl: Whitelist, start: int, cap: u64)
    requires !cfg.paused && wl.whitelisted && 0 <= start <= 1_000_000 && LARGE + 1 <= cap
    requires 0 <= wl.currentBorrowed && wl.currentBorrowed + LARGE + 1 <= wl.maxBorrowCapacity <= U64_MAX
    requires CreateMarket(cfg, wl, 0, start + 100, cap, start) == Success(created)
    ensures var a, b := Call(cfg, start, wl, IxDeposit(1, LARGE)), Call(cfg, start, wl, IxDeposit(2, 1));
            Tallied(Advance(Advance(Advance(History(created, NEW_LEDGER), a), b),
                            Call(cfg, start, wl, IxBorrow(LARGE + 1))),
                    Emptied(start, cap), 0)
  {
    Emptying(created, cfg, wl, start, cap);
    var a, b := Call(cfg, start, wl, IxDeposit(1, LARGE)), Call(cfg, start, wl, IxDeposit(2, 1));
    var m1 := Deposit(created, cfg, start, 1, LARGE).value;
    var m2 := Deposit(m1, cfg, start, 2, 1).value;
    var h := History(created, NEW_LEDGER);
    TallyCall(h, a, created, m1, wl, 0);
    TallyCall(Advance(h, a), b, m1, m2, wl, 0);
    TallyCall(Advance(Advance(h, a), b), Call(cfg, start, wl, IxBorrow(LARGE + 1)), m2, Emptied(start, cap),
              wl.(currentBorrowed := wl.currentBorrowed + LARGE + 1), 0);
  }

  lemma DustTallied(h: History, cfg: Config, wl: Whitelist, now: int, start: int, cap: u64)
    requires !cfg.paused && 0 <= start <= 1_000_000 && start + 400 <= now && Tallied(h, Emptied(start, cap), 0)
    ensures var h' := Advance(h, Call(cfg, now, wl, IxForceClose(2)));
            h'.market == Clamped(start, cap) && h'.ledger.clampShortfall == 2
  {
    DustSettles(cfg, now, start, cap);
    DustTally(h.ledger, start, cap);
    assert Process(Emptied(start, cap), Call(cfg, now, wl, IxForceClose(2))) == Success((Clamped(start, cap), wl));
  }

  /** From creation, force-closing a dust position can settle an empty market at factor 1 and leave
      two units promised that the vault does not hold; every exit of the other lender then fails. */
  lemma DustCanPromiseTooMuch(created: MarketState, cfg: Config, wl: Whitelist, now: int, start: int, cap: u64)
    requires !cfg.paused && wl.whitelisted && 0 <= start <= 1_000_000 && LARGE + 1 <= cap && start + 400 <= now
    requires 0 <= wl.currentBorrowed && wl.currentBorrowed + LARGE + 1 <= wl.maxBorrowCapacity <= U64_MAX
    requires CreateMarket(cfg, wl, 0, start + 100, cap, start) == Success(created)
    ensures var h := Trace(History(created, NEW_LEDGER),
                           [Call(cfg, start, wl, IxDeposit(1, LARGE)), Call(cfg, start, wl, IxDeposit(2, 1)),
                            Call(cfg, start, wl, IxBorrow(LARGE + 1)), Call(cfg, now, wl, IxForceClose(2))]);
            && h.market == Clamped(start, cap) && h.ledger.clampShortfall == 2
            && SolventUpTo(h.market, 2) && !SolventUpTo(h.market, 1)
            && ForceClose(h.market, cfg, now, 1) == Failure(TransferFailed)
            && Withdraw(h.market, cfg, now, 1, 0, 0) == Failure(TransferFailed)
  {
    var a, b := Call(cfg, start, wl, IxDeposit(1, LARGE)), Call(cfg, start, wl, IxDeposit(2, 1));
    var c, d := Call(cfg, start, wl, IxBorrow(LARGE + 1)), Call(cfg, now, wl, IxForceClose(2));
    var h := History(created, NEW_LEDGER);
    TraceOfFour(h, a, b, c, d);
    EmptyingTallied(created, cfg, wl, start, cap);
    DustTallied(Advance(Advance(Advance(h, a), b), c), cfg, wl, now, start, cap);
    DustSettles(cfg, now, start, cap);
    ShortByTwo(start, cap);
  }

  // ------------------------------------------------------------------
  // A full repayment that recovers nothing
  // ------------------------------------------------------------------

  const ONE_THIRD: int := 333_333_333_333_333_333
  const THREE_FIFTHS: int := 600_000_000_000_000_000

  /** Deposits of 1 and 2, of which 2 are out on loan. */
  function Thirds(start: int, cap: u64): MarketState {
    MarketState(0, start + 100, cap, 1, 3, WAD, 0, 3, 2, 0, 0, start, 0, 0, 0, 0,
                map[1 := Position(1, 0, 0), 2 := Position(2, 0, 0)])
  }

  function AtOneThird(start: int, cap: u64): MarketState {
    Thirds(start, cap).(lastAccrual := start + 100, settlementFactor := ONE_THIRD)
  }

  function OneClosed(start: int, cap: u64): MarketState {
    AtOneThird(start, cap).(scaledSupply := 2, haircutAccumulator := 1, weightSum := 2,
                            book := map[1 := Position(0, 1, ONE_THIRD), 2 := Position(2, 0, 0)])
  }

  /** Both positions are closed for nothing; 3 units are owed against a vault of 1. */
  function BothClosed(start: int, cap: u64): MarketState {
    AtOneThird(start, cap).(scaledSupply := 0, haircutAccumulator := 3, weightSum := 5,
                            book := map[1 := Position(0, 1, ONE_THIRD), 2 := Position(0, 2, ONE_THIRD)])
  }

  /** The whole loan is repaid, so that the vault holds the 3 units, and the market re-settled. */
  function Stuck(start: int, cap: u64): MarketState {
    BothClosed(start, cap).(vault := 3, totalRepaid := 2, settlementFactor := THREE_FIFTHS)
  }

  lemma ThirdRecords()
    ensures PositionContribution(1, ONE_THIRD) == Success((2, 0))
    ensures PositionContribution(2, ONE_THIRD) == Success((3, 0))
    ensures ClaimableExact(1, ONE_THIRD, THREE_FIFTHS) == Success(0)
    ensures ClaimableExact(2, ONE_THIRD, THREE_FIFTHS) == Success(0)
  {
    DivIs(1 * WAD + (WAD - ONE_THIRD) - 1, WAD - ONE_THIRD, 2);
    DivIs(2 * ONE_THIRD, WAD, 0);
    DivIs(2 * WAD + (WAD - ONE_THIRD) - 1, WAD - ONE_THIRD, 3);
    DivIs(3 * ONE_THIRD, WAD, 0);
    DivIs(1 * (THREE_FIFTHS - ONE_THIRD), WAD - ONE_THIRD, 0);
    DivIs(2 * (THREE_FIFTHS - ONE_THIRD), WAD - ONE_THIRD, 0);
  }

  lemma ThirdsClose(start: int, cap: u64)
    ensures CloseOut(AtOneThird(start, cap), 1) == Success(OneClosed(start, cap))
    ensures CloseOut(OneClosed(start, cap), 2) == Success(BothClosed(start, cap))
  {
    ThirdRecords();
    Whole(1);
    Whole(2);
    DivIs(1 * ONE_THIRD, WAD, 0);
    DivIs(2 * ONE_THIRD, WAD, 0);
    LeavesAtPar(AtOneThird(start, cap), 1, 1, 0, 0, (0, 0), (2, 0));
    assert AtOneThird(start, cap).book[1 := Position(0, 1, ONE_THIRD)] == OneClosed(start, cap).book;
    LeavesAtPar(OneClosed(start, cap), 2, 2, 0, 0, (0, 0), (3, 0));
    assert OneClosed(start, cap).book[2 := Position(0, 2, ONE_THIRD)] == BothClosed(start, cap).book;
  }

  lemma ThirdsSettle(cfg: Config, now: int, start: int, cap: u64)
    requires !cfg.paused && 0 <= start <= 1_000_000 && start + 400 <= now
    ensures ForceClose(Thirds(start, cap), cfg, now, 1) == Success(OneClosed(start, cap))
    ensures ForceClose(OneClosed(start, cap), cfg, now, 2) == Success(BothClosed(start, cap))
  {
    NoInterest(Thirds(start, cap), cfg, now);
    Whole(3);
    DivIs(1 * WAD, 3, ONE_THIRD);
    assert Settle(Thirds(start, cap).(lastAccrual := start + 100)) == Success(AtOneThird(start, cap));
    ThirdsClose(start, cap);
    NothingToAccrue(OneClosed(start, cap), cfg, now);
  }

  lemma ThirdsRepaid(cfg: Config, wl: Whitelist, now: int, start: int, cap: u64)
    requires !cfg.paused && 0 <= start && start + 400 <= now && 2 <= wl.currentBorrowed
    ensures var repaid := BothClosed(start, cap).(vault := 3, totalRepaid := 2);
            && Repay(BothClosed(start, cap), wl, cfg, now, 2)
               == Success((repaid, wl.(currentBorrowed := wl.currentBorrowed - 2)))
            && ReSettle(repaid, cfg, now) == Success(Stuck(start, cap))
  {
    NothingToAccrue(BothClosed(start, cap), cfg, now);
    NothingToAccrue(BothClosed(start, cap).(vault := 3, totalRepaid := 2), cfg, now);
    Whole(0);
    DivIs(3 * WAD, 5, THREE_FIFTHS);
  }

  /** Nothing moves a stuck market but two more units from outside. */
  lemma StuckUntilGiven(cfg: Config, now: int, start: int, cap: u64)
    requires !cfg.paused && 0 <= start && start + 400 <= now
    ensures var m := Stuck(start, cap);
            var given := m.(vault := 5);
            && ClaimHaircut(m, cfg, 1) == ClaimHaircut(m, cfg, 2) == Failure(ZeroPayout)
            && ReSettle(m, cfg, now) == Failure(SettlementNotImproved)
            && Donate(m, 2) == Success(given)
            && ReSettle(given, cfg, now) == Success(given.(settlementFactor := WAD))
  {
    ThirdRecords();
    NothingToAccrue(Stuck(start, cap), cfg, now);
    NothingToAccrue(Stuck(start, cap).(vault := 5), cfg, now);
    Whole(0);
    DivIs(3 * WAD, 5, THREE_FIFTHS);
    DivIs(5 * WAD, 5, WAD);
  }

  function LendingOut(cfg: Config, wl: Whitelist, start: int): seq<Call> {
    [Call(cfg, start, wl, IxDeposit(1, 1)), Call(cfg, start, wl, IxDeposit(2, 2)), Call(cfg, start, wl, IxBorrow(2))]
  }

  function Closing(cfg: Config, wl: Whitelist, now: int): seq<Call> {
    [Call(cfg, now, wl, IxForceClose(1)), Call(cfg, now, wl, IxForceClose(2))]
  }

  function Repaying(cfg: Config, wl: Whitelist, now: int): seq<Call> {
    [Call(cfg, now, wl, IxRepay(2)), Call(cfg, now, wl, IxReSettle)]
  }

  lemma ThirdsLent(created: MarketState, cfg: Config, wl: Whitelist, start: int, cap: u64)
    requires !cfg.paused && wl.whitelisted && 0 <= start <= 1_000_000 && 3 <= cap
    requires 0 <= wl.currentBorrowed && wl.currentBorrowed + 2 <= wl.maxBorrowCapacity <= U64_MAX
    requires CreateMarket(cfg, wl, 0, start + 100, cap, start) == Success(created)
    ensures Run(created, LendingOut(cfg, wl, start)) == Thirds(start, cap)
  {
    DepositAtPar(created, cfg, start, 1, 1);
    var m1 := Deposit(created, cfg, start, 1, 1).value;
    assert m1.book == map[1 := Position(1, 0, 0)];
    DepositAtPar(m1, cfg, start, 2, 2);
    var m2 := Deposit(m1, cfg, start, 2, 2).value;
    assert m2.book == Thirds(start, cap).book;
    NothingToAccrue(m2, cfg, start);
    RunOfThree(created, Call(cfg, start, wl, IxDeposit(1, 1)), Call(cfg, start, wl, IxDeposit(2, 2)),
               Call(cfg, start, wl, IxBorrow(2)));
  }

  lemma ThirdsClosed(cfg: Config, wl: Whitelist, now: int, start: int, cap: u64)
    requires !cfg.paused && 0 <= start <= 1_000_000 && start + 400 <= now
    ensures Run(Thirds(start, cap), Closing(cfg, wl, now)) == BothClosed(start, cap)
  {
    ThirdsSettle(cfg, now, start, cap);
    RunOfTwo(Thirds(start, cap), Call(cfg, now, wl, IxForceClose(1)), Call(cfg, now, wl, IxForceClose(2)));
  }

  lemma ThirdsStick(cfg: Config, wl: Whitelist, now: int, start: int, cap: u64)
    requires !cfg.paused && 0 <= start && start + 400 <= now && 2 <= wl.currentBorrowed
    ensures Run(BothClosed(start, cap), Repaying(cfg, wl, now)) == Stuck(start, cap)
  {
    ThirdsRepaid(cfg, wl, now, start, cap);
    RunOfTwo(BothClosed(start, cap), Call(cfg, now, wl, IxRepay(2)), Call(cfg, now, wl, IxReSettle));
  }

  lemma {:induction false} RunAppends(m: MarketState, a: seq<Call>, b: seq<Call>)
    ensures Run(m, a + b) == Run(Run(m, a), b)
    decreases |a|
  {
    if |a| == 0 {
      assert a + b == b;
    } else {
      assert (a + b)[1..] == a[1..] + b;
      RunAppends(Step(m, a[0]), a[1..], b);
    }
  }

  /** From creation, a borrower can repay the whole loan into a market that owes exactly what its vault
      then holds, and nobody recovers anything: the re-settlement stops at three fifths, every claim
      comes to nothing, and only two more units, one for each rounded weight, lead to WAD. */
  lemma FullRepaymentCanStick(created: MarketState, cfg: Config, wl: Whitelist, now: int, start: int, cap: u64)
    requires !cfg.paused && wl.whitelisted && 0 <= start <= 1_000_000 && 3 <= cap && start + 400 <= now
    requires 0 <= wl.currentBorrowed && wl.currentBorrowed + 2 <= wl.maxBorrowCapacity <= U64_MAX
    requires CreateMarket(cfg, wl, 0, start + 100, cap, start) == Success(created)
    ensures var indebted := wl.(currentBorrowed := wl.currentBorrowed + 2);
            var m := Run(created,
                         LendingOut(cfg, wl, start) + Closing(cfg, indebted, now) + Repaying(cfg, indebted, now));
            && m.vault == m.haircutAccumulator == 3 && m.scaledSupply == 0 && Outstanding(m) == 0
            && m.settlementFactor == THREE_FIFTHS
            && ClaimHaircut(m, cfg, 1) == ClaimHaircut(m, cfg, 2) == Failure(ZeroPayout)
            && ReSettle(m, cfg, now) == Failure(SettlementNotImproved)
            && ReSettle(m.(vault := 5), cfg, now) == Success(m.(vault := 5, settlementFactor := WAD))
  {
    var indebted := wl.(currentBorrowed := wl.currentBorrowed + 2);
    var a, b, c := LendingOut(cfg, wl, start), Closing(cfg, indebted, now), Repaying(cfg, indebted, now);
    RunAppends(created, a, b);
    RunAppends(created, a + b, c);
    ThirdsLent(created, cfg, wl, start, cap);
    ThirdsClosed(cfg, indebted, now, start, cap);
    ThirdsStick(cfg, indebted, now, start, cap);
    StuckUntilGiven(cfg, now, start, cap);
  }
}
