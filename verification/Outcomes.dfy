/** Errors and results of the lending program. */
module Outcomes {

  /** The error codes that a modelled instruction can return (src/error.rs). */
  datatype LendingError =
    | InvalidFeeRate
    | InvalidCapacity
    | InvalidMaturity
    | NotWhitelisted
    | MarketAlreadyExists
    | ProtocolPaused
    | BorrowerHasActiveDebt
    | ZeroAmount
    | ZeroScaledAmount
    | InvalidScaleFactor
    | InvalidTimestamp
    | InsufficientScaledBalance
    | NoBalance
    | ZeroPayout
    | CapExceeded
    | BorrowAmountTooHigh
    | GlobalCapacityExceeded
    | MarketMatured
    | NotMatured
    | NotSettled
    | SettlementNotImproved
    | SettlementGracePeriod
    | SettlementNotComplete
    | PositionNotEmpty
    | RepaymentExceedsDebt
    | NoFeesToCollect
    | FeeCollectionDuringDistress
    | LendersPendingWithdrawals
    | FeesNotCollected
    | NoExcessToWithdraw
    | MathOverflow
    | PayoutBelowMinimum
    | NoHaircutToClaim
    | AccountMissing   // the lender has no position account
    | TransferFailed   // rejected by the token program

  /** Outcome of a step that can fail. */
  datatype Result<+T> = Success(value: T) | Failure(error: LendingError) {
    predicate IsFailure() {
      Failure?
    }

    function PropagateFailure<U>(): Result<U>
      requires Failure?
    {
      Failure(error)
    }

    function Extract(): T
      requires Success?
    {
      value
    }
  }
}
