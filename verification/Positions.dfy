/** Lender positions of one market and sums over them. */
module Positions {
  import opened Haircuts
  import opened Sums

  type Lender = nat

  /** A lender's share, and the haircut still owed to a lender who left in distress. */
  datatype Position = Position(scaledBalance: int, haircutOwed: int, withdrawalSf: int)

  const EMPTY: Position := Position(0, 0, 0)

  type Book = map<Lender, Position>

  function PositionOf(book: Book, l: Lender): Position {
    if l in book then book[l] else EMPTY
  }

  function BalanceOf(p: Position): int {
    p.scaledBalance
  }

  function OwedOf(p: Position): int {
    p.haircutOwed
  }

  function WeightOf(p: Position): int {
    Weight(p.haircutOwed, p.withdrawalSf)
  }

  function OffsetOf(p: Position): int {
    Offset(p.haircutOwed, p.withdrawalSf)
  }

  /** What a position can claim once the settlement factor is `t`. */
  function ClaimOf(p: Position, t: int): int {
    Claimable(p.haircutOwed, p.withdrawalSf, t)
  }

  function ClaimAt(t: int): Position -> int {
    (p: Position) => ClaimOf(p, t)
  }

  /** Writing one position moves a sum by the difference of its two values. */
  lemma SumWrite(book: Book, f: Position -> int, l: Lender, p: Position)
    requires f(EMPTY) == 0
    ensures SumOf(book[l := p], f) == SumOf(book, f) - f(PositionOf(book, l)) + f(p)
  {
    SumUpdate(book, f, l, p);
  }
}
