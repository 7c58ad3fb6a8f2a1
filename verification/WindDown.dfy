/** Winding a recovered market down to nothing. */
module WindDown {
  import opened Outcomes
  import opened FixedPoint
  import opened Sums
  import opened Positions
  import opened Markets
  import opened Invariants
  import opened Settlement

  /** Something the borrower still has to do for a lender. */
  datatype Chore = Close(lender: Lender) | Release(lender: Lender)

  /** The borrower's call for a chore: force-close a balance, or force-claim a haircut. */
  function Do(m: MarketState, cfg: Config, now: int, chore: Chore): Result<MarketState> {
    match chore
    case Close(l) => ForceClose(m, cfg, now, l)
    case Release(l) => ForceClaimHaircut(m, cfg, now, l)
  }

  /** The chore is still to be done: the position has a balance, or a haircut. */
  predicate Due(m: MarketState, chore: Chore) {
    match chore
    case Close(l) => 0 < PositionOf(m.book, l).scaledBalance
    case Release(l) => 0 < PositionOf(m.book, l).haircutOwed
  }

  /** `todo` lists every due chore exactly once. */
  ghost predicate ListsAllDue(m: MarketState, todo: seq<Chore>) {
    && (forall i, j :: 0 <= i < j < |todo| ==> todo[i] != todo[j])
    && (forall chore :: Due(m, chore) <==> chore in todo)
  }

  /** Runs the chores in order; fails as soon as one of them does. */
  function Work(m: MarketState, cfg: Config, now: int, todo: seq<Chore>): Result<MarketState>
    decreases |todo|
  {
    if |todo| == 0 then Success(m)
    else
      var after :- Do(m, cfg, now, todo[0]);
      Work(after, cfg, now, todo[1..])
  }

  predicate Recovered(m: MarketState, cfg: Config, now: int) {
    && m.settlementFactor == WAD
    && !cfg.paused
    && m.maturity + SETTLEMENT_GRACE_PERIOD <= now
  }

  lemma CloseIsAffordable(m: MarketState, cfg: Config, now: int, l: Lender)
    requires Inv(m) && Recovered(m, cfg, now) && Due(m, Close(l))
    ensures var scaled := m.book[l].scaledBalance;
            var n := scaled * m.scaleFactor / WAD;
            && Normalize(scaled, m.scaleFactor) == Success(n)
            && Normalize(n, WAD) == Success(n)
            && scaled <= m.scaledSupply && 0 <= n <= m.vault
  {
    CoveredClaimsFit(m);
    ShareOfAggregates(m, l);
    var scaled := m.book[l].scaledBalance;
    var n := scaled * m.scaleFactor / WAD;
    MulLe(scaled, m.scaledSupply, m.scaleFactor);
    MulLe(0, scaled, m.scaleFactor);
    DivMono(scaled * m.scaleFactor, m.scaledSupply * m.scaleFactor, WAD);
    DivNonNegative(scaled * m.scaleFactor, WAD);
    DivIs(n * WAD, WAD, n);
  }

  lemma CloseSucceeds(m: MarketState, cfg: Config, now: int, l: Lender)
    requires Inv(m) && Recovered(m, cfg, now) && Due(m, Close(l))
    ensures var r := ForceClose(m, cfg, now, l);
            && r.Success? && Inv(r.value) && Recovered(r.value, cfg, now)
            && r.value.fees == m.fees
            && r.value.book == m.book[l := m.book[l].(scaledBalance := 0)]
  {
    CloseIsAffordable(m, cfg, now, l);
    var scaled := m.book[l].scaledBalance;
    var n := scaled * m.scaleFactor / WAD;
    assert Accrue(m, cfg, now) == Success(m);
    assert Leave(m, l, scaled, n, n).Success?;
    ForceCloseKeepsInv(m, cfg, now, l);
  }

  lemma ReleaseSucceeds(m: MarketState, cfg: Config, now: int, l: Lender)
    requires Inv(m) && Recovered(m, cfg, now) && Due(m, Release(l))
    ensures var r := ForceClaimHaircut(m, cfg, now, l);
            && r.Success? && Inv(r.value) && Recovered(r.value, cfg, now)
            && r.value.fees == m.fees
            && r.value.book == m.book[l := m.book[l].(haircutOwed := 0, withdrawalSf := 0)]
  {
    FullRecovery(m, cfg, l);
  }

  lemma ChoreDone(m: MarketState, m': MarketState, todo: seq<Chore>)
    requires ListsAllDue(m, todo) && |todo| > 0
    requires var chore := todo[0];
             var p := PositionOf(m.book, chore.lender);
             m'.book == m.book[chore.lender :=
               if chore.Close? then p.(scaledBalance := 0) else p.(haircutOwed := 0, withdrawalSf := 0)]
    ensures ListsAllDue(m', todo[1..])
  {
    var rest := todo[1..];
    forall chore
      ensures Due(m', chore) <==> chore in rest
    {
      assert chore in todo <==> chore == todo[0] || chore in rest;
      assert todo[0] !in rest;
    }
  }

  lemma NothingDue(m: MarketState)
    requires Inv(m) && ListsAllDue(m, [])
    ensures m.scaledSupply == 0 && m.haircutAccumulator == 0 && m.weightSum == 0 && m.offsetSum == 0
  {
    forall l | l in m.book
      ensures m.book[l].scaledBalance == 0 && m.book[l].haircutOwed == 0
      ensures WeightOf(m.book[l]) == 0 && OffsetOf(m.book[l]) == 0
    {
      assert !Due(m, Close(l)) && !Due(m, Release(l));
      assert 0 * m.book[l].withdrawalSf == 0;
    }
    SumZero(m.book, BalanceOf);
    SumZero(m.book, OwedOf);
    SumZero(m.book, WeightOf);
    SumZero(m.book, OffsetOf);
  }

  lemma DueChoreSucceeds(m: MarketState, cfg: Config, now: int, chore: Chore)
    requires Inv(m) && Recovered(m, cfg, now) && Due(m, chore)
    ensures var r := Do(m, cfg, now, chore);
            var p := PositionOf(m.book, chore.lender);
            && r.Success? && Inv(r.value) && Recovered(r.value, cfg, now)
            && r.value.fees == m.fees
            && r.value.book == m.book[chore.lender :=
                 if chore.Close? then p.(scaledBalance := 0) else p.(haircutOwed := 0, withdrawalSf := 0)]
  {
    match chore {
      case Close(l) => CloseSucceeds(m, cfg, now, l);
      case Release(l) => ReleaseSucceeds(m, cfg, now, l);
    }
  }

  lemma {:induction false} WorkSucceeds(m: MarketState, cfg: Config, now: int, todo: seq<Chore>)
    requires Inv(m) && Recovered(m, cfg, now) && ListsAllDue(m, todo)
    ensures var r := Work(m, cfg, now, todo);
            && r.Success? && Inv(r.value) && Recovered(r.value, cfg, now)
            && r.value.fees == m.fees
            && ListsAllDue(r.value, [])
    decreases |todo|
  {
    if |todo| == 0 {
      assert todo == [];
    } else {
      assert Due(m, todo[0]);
      DueChoreSucceeds(m, cfg, now, todo[0]);
      var m' := Do(m, cfg, now, todo[0]).value;
      ChoreDone(m, m', todo);
      WorkSucceeds(m', cfg, now, todo[1..]);
    }
  }

  /** From any recovered market, force-closing every balance and force-claiming every haircut,
      in any order, never fails and leaves no obligation of any kind; if no fees are left the
      excess sweep then empties the vault. */
  lemma WindDownIsClean(m: MarketState, cfg: Config, now: int, wl: Whitelist, todo: seq<Chore>)
    requires Inv(m) && Recovered(m, cfg, now) && ListsAllDue(m, todo)
    ensures var r := Work(m, cfg, now, todo);
            && r.Success?
            && r.value.scaledSupply == 0 && r.value.haircutAccumulator == 0
            && r.value.weightSum == 0 && r.value.offsetSum == 0
            && (m.fees == 0 && wl.whitelisted ==>
                  WithdrawExcess(r.value, wl, cfg, now)
                  == if r.value.vault == 0 then Failure(NoExcessToWithdraw) else Success(r.value.(vault := 0)))
  {
    WorkSucceeds(m, cfg, now, todo);
    NothingDue(Work(m, cfg, now, todo).value);
  }

  /** Every market has such a list. */
  lemma {:induction false} ListChores(book: Book) returns (todo: seq<Chore>)
    ensures forall i, j :: 0 <= i < j < |todo| ==> todo[i] != todo[j]
    ensures forall chore :: chore in todo <==>
              && chore.lender in book
              && 0 < if chore.Close? then book[chore.lender].scaledBalance else book[chore.lender].haircutOwed
    decreases |book|
  {
    todo := [];
    if |book| == 0 {
    } else {
      var l := Pick(book);
      var rest := ListChores(book - {l});
      var mine := (if 0 < book[l].scaledBalance then [Close(l)] else [])
                + (if 0 < book[l].haircutOwed then [Release(l)] else []);
      todo := mine + rest;
      assert forall chore :: chore in todo <==> chore in mine || chore in rest;
    }
  }

  lemma DueChoresCanBeListed(m: MarketState)
    ensures exists todo :: ListsAllDue(m, todo)
  {
    var todo := ListChores(m.book);
    assert ListsAllDue(m, todo);
  }
}
