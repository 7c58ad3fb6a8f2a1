/** Runs of a market together with a ledger of what each lender was due and was paid. */
module Histories {
  import opened Outcomes
  import opened FixedPoint
  import opened Haircuts
  import opened Positions
  import opened Markets
  import opened Invariants

  type Tally = map<Lender, int>

  /** Bookkeeping beside the market that the program itself does not keep.
      - `paid`, `totalPaid`: tokens sent to each lender and to all of them;
      - `entitled`: normalized value of the shares each lender gave up;
      - `lossyRebases`: exits since the last re-settlement that re-anchored an older haircut and
        rounded;
      - `clampShortfall`: what the first settlement promised beyond the vault, because the
        factor is never less than one unit of 1e-18. */
  datatype Ledger = Ledger(paid: Tally, entitled: Tally, totalPaid: int, lossyRebases: int, clampShortfall: int)

  const NEW_LEDGER: Ledger := Ledger(map[], map[], 0, 0, 0)

  datatype History = History(market: MarketState, ledger: Ledger)

  function At(t: Tally, l: Lender): int {
    if l in t then t[l] else 0
  }

  function Pay(g: Ledger, l: Lender, amount: int): Ledger {
    g.(paid := g.paid[l := At(g.paid, l) + amount], totalPaid := g.totalPaid + amount)
  }

  /** Shortfall of a settlement at factor `s` of claims `r` against vault `v`. */
  function Shortfall(v: int, r: int, s: int): int {
    Max(0, r * s / WAD - v)
  }

  /** True when an exit of `normalized` units re-anchors an older haircut by a division that is not exact. */
  predicate RebaseRounds(m: MarketState, l: Lender, normalized: int) {
    var p := PositionOf(m.book, l);
    Rebases(m, l, normalized) && Rounds(p.haircutOwed, p.withdrawalSf, m.settlementFactor)
  }

  /** Records an exit from `m` to `m'`. */
  function RecordExit(g: Ledger, m: MarketState, m': MarketState, l: Lender): Ledger {
    var scaled := PositionOf(m.book, l).scaledBalance - PositionOf(m'.book, l).scaledBalance;
    var normalized := scaled * m'.scaleFactor / WAD;
    var rounded := RebaseRounds(m.(settlementFactor := m'.settlementFactor), l, normalized);
    Pay(g, l, m.vault - m'.vault).(
      entitled := g.entitled[l := At(g.entitled, l) + normalized],
      lossyRebases := g.lossyRebases + (if rounded then 1 else 0),
      clampShortfall :=
        if m.settlementFactor == 0
        then g.clampShortfall + Shortfall(m.vault, m.scaledSupply * m'.scaleFactor / WAD, m'.settlementFactor)
        else g.clampShortfall)
  }

  /** The ledger after a successful call. */
  function Record(g: Ledger, m: MarketState, ix: Instruction, m': MarketState): Ledger {
    match ix
    case IxWithdraw(l, _, _) => RecordExit(g, m, m', l)
    case IxForceClose(l) => RecordExit(g, m, m', l)
    case IxClaimHaircut(l) => Pay(g, l, m.vault - m'.vault)
    case IxForceClaimHaircut(l) => Pay(g, l, m.vault - m'.vault)
    case IxReSettle => g.(lossyRebases := 0, clampShortfall := 0)
    case _ => g
  }

  function Advance(h: History, c: Call): History {
    match Process(h.market, c)
    case Success(after) => History(after.0, Record(h.ledger, h.market, c.ix, after.0))
    case Failure(_) => h
  }

  function Trace(h: History, calls: seq<Call>): History
    decreases |calls|
  {
    if |calls| == 0 then h else Trace(Advance(h, calls[0]), calls[1..])
  }

  /** The ledger only watches: the market of a trace is the market of the run. */
  lemma {:induction false} TraceIsRun(h: History, calls: seq<Call>)
    ensures Trace(h, calls).market == Run(h.market, calls)
    decreases |calls|
  {
    if |calls| == 0 {
    } else {
      TraceIsRun(Advance(h, calls[0]), calls[1..]);
    }
  }

  lemma {:induction false} TraceAppends(h: History, a: seq<Call>, b: seq<Call>)
    ensures Trace(h, a + b) == Trace(Trace(h, a), b)
    decreases |a|
  {
    if |a| == 0 {
      assert a + b == b;
    } else {
      assert (a + b)[1..] == a[1..] + b;
      TraceAppends(Advance(h, a[0]), a[1..], b);
    }
  }

  // ------------------------------------------------------------------
  // Calls that touch no position
  // ------------------------------------------------------------------

  /** Calls that bring money in, or that a settled market refuses. */
  predicate IsEntryOrInflow(ix: Instruction) {
    ix.IxDeposit? || ix.IxBorrow? || ix.IxRepay? || ix.IxRepayInterest? || ix.IxDonate?
  }

  lemma EntryOrInflowFacts(m: MarketState, c: Call)
    requires Inv(m) && Process(m, c).Success? && IsEntryOrInflow(c.ix)
    ensures var m' := Process(m, c).value.0;
            && m'.settlementFactor == m.settlementFactor
            && (m.lastAccrual == m.maturity ==> OnlyMoneyMoved(m, m') && m.vault <= m'.vault)
  {
  }

  predicate IsSweep(ix: Instruction) {
    ix.IxCollectFees? || ix.IxWithdrawExcess?
  }

  lemma SweepFacts(m: MarketState, c: Call)
    requires Inv(m) && Process(m, c).Success? && IsSweep(c.ix)
    ensures var m' := Process(m, c).value.0;
            && m'.settlementFactor == m.settlementFactor
            && (m.settlementFactor == 0 || m.settlementFactor == WAD)
            && (m.lastAccrual == m.maturity ==> OnlyMoneyMoved(m, m'))
  {
  }
}
