# Settlement and interest of a fixed-term lending market

The program lends pooled deposits to one borrower until a maturity date. Lenders hold shares
(`scaledBalance`) whose worth is `floor(shares * scaleFactor / WAD)`, with `WAD = 10^18`. The scale
factor grows with interest until maturity. The first exit after maturity and a grace period locks a
settlement factor in `[1, WAD]`: the share of all claims that the vault covers. A lender who leaves
below `WAD` is paid short; the unpaid part stays on the position as a haircut anchored at the factor
it left at. Later repayments let `re_settle` raise the factor, and lenders who left claim the
improvement. The obligation is stored twice: exactly, per position and in `haircutAccumulator`, and
as two sums `(weightSum, offsetSum)` of a conservative line, from which `re_settle` solves for the
next factor without visiting any position.

This project models that market and proves, for every run of calls in any order, with any clock and
any outside token transfers into the vault, that the two forms agree, that everyone stays covered,
and how exact each rounding is.

How it is built:

- `Outcomes`, `FixedPoint`, `Powers`, `Sums`: results and errors, checked arithmetic, exact powers, sums over maps.
- `Interest`, `Accruals`, `Splitting`: the truncating square-and-multiply, accrual, fees, what splitting an accrual
  costs and when it pays.
- `Haircuts`: the four functions of the haircut arithmetic and their laws.
- `Positions`, `Markets`: the state of a market and each instruction as a function on it.
- `MarketAccount`: the handlers as they run, updating stored fields in place in the program's order and stopping at
  the first error, each proved equal to its function; `Execute` is the transaction around them.
- `Invariants`, `Histories`, `Solvency`, `Clamp`, `Conservation`, `Books`, `Settlement`, `WindDown`, `Debt`: what holds of
  every state and every run.
- `Decisions`: for each instruction, the exact condition under which it is accepted.
- `Episode`, `Shortages`: families of concrete runs from creation, through distress to full recovery, and to the
  three shortages that rounding can cause.

Main results: the aggregates are the per-lender sums in every reachable state, so no saturating
subtraction saturates (`RunKeepsInv`, `HaircutWithinReserve`); solvency over whole runs with the least
allowance for rounding (`ReachableMarketsAreSolvent`, `SmallMarketsAreSolvent`, `OneRebaseLeavesNobodyShort`); full recovery is permanent and pays everyone (`FullRecovery`,
`FullRecoveryIsPermanent`); a recovered market winds down to nothing (`WindDownIsClean`); nothing is
created for lenders (`LenderConservation`, `MarketConservation`) and every token is accounted for (`BooksBalance`); `re_settle` takes the greatest
factor that its sums carry and is within two units per haircut of the best
(`ReSettleIsGreatest`, `ReSettleIsNearOptimal`); no growth computation overflows and growth never
falls with time (`AccrualNeverOverflows`, `GrowthMonotoneInTime`); fees are exactly the fee rate's share of
the growth, over whole runs (`FeesAreCharged`); and each instruction is accepted exactly when its stated condition
holds (`Decisions`).

Five expectations are not met by the code exactly as one would state them first. Each has a concrete
input and its exact condition or bound:

- The clamp to at least 1 can promise more than the vault holds at the first settlement: force-closing a
  dust position can settle an empty market at 1, and the next exit fails (`DustCanPromiseTooMuch`). It
  does not exactly when the claims stay below `WAD * (vault + 1)` (`FirstSettlementCoversIff`,
  `SettlementShortfallIff`), over runs as well (`NoClampShortfall`, `NoClampShortfallIff`), and never on a
  market with `243 * maxTotalSupply < WAD` (`SmallMarketsAreSolvent`).
- Re-anchoring a haircut rounds the remainder down, so an exit may recover one unit more than its claim
  (`RebaseCanDropOne`); it does exactly when the division is not exact (`RebaseComplementsClaim`). One
  such exit since the last re-settlement leaves nobody short (`OneRebaseLeavesNobodyShort`), and while there
  was none no exit fails for want of tokens (`NoExitRunsShort`); two can take a unit that a third
  lender is due (`TwoRebasesLeaveOneShort`). Solvency allows one unit for all but one of them.
- Paying back all that is owed need not recover anything: with two small haircuts a full repayment
  leaves the factor at three fifths and every claim at nothing (`FullRepaymentCanStick`). A re-settlement
  reaches WAD exactly when the vault holds what is owed and one unit more for each haircut
  whose weight was rounded up (`ReSettleReachesWadIff`). Its arithmetic can also overflow
  (`SolverCanOverflow`); `ReSettleSucceedsIff` says exactly when it is refused.
- `fuzz/fuzz_targets/fuzz_deposit_withdraw_roundtrip.rs:51-58` asserts that a deposit loses at most one unit.
  It can lose two (`DepositCanLoseTwo`); `DepositRoundTrip` gives the exact loss and when it is at most one.
- `fuzz/fuzz_targets/fuzz_differential_interest.rs:73-82` asserts that splitting an accrual never earns less.
  It can (`TwoStepsCanEarnLess`). `TwoStepsFromFresh` says exactly when two steps within a day of a fresh
  market do not; `TwoStepsPay` and `SplittingPays` give conditions on the times alone under which two and
  any number of steps over a whole term do not; `SplittingCostsLittle` bounds the loss of any split.

## Model

| member | source | states |
|---|---|---|
| Interest.ComputePowWad | src/logic/interest.rs:45-61 | the loop on result, base and exponent returns the specified power, or the overflow of the multiplication it stops at |
| Interest.PowSandwich | src/logic/interest.rs:37-61 | `(WAD - e) * b^e <= pow(b, e) * WAD^e <= WAD * b^e` for every base of at least WAD |
| Interest.PowAtLeastLinear | src/logic/interest.rs:45-61 | compounding earns at least simple interest in spite of truncation |
| Interest.PowMonotone | src/logic/interest.rs:45-61 | the truncating power is monotone in accumulator and base |
| Interest.PowMonotoneInExponent | src/logic/interest.rs:45-61 | and in the exponent, although different exponents multiply in a different order |
| Interest.PowLoopFits | src/logic/interest.rs:45-61 | when the exact power stays under the growth cap, no product of the loop, squares included, exceeds u128 |
| Interest.GrowthBounded | src/logic/interest.rs:98-144 | growth over e seconds is at most (1 + 1/SECONDS_PER_YEAR)^e, and at least one |
| Interest.GrowthNeverOverflows | src/logic/interest.rs:98-144 | within the rate bound and five years every checked step of the growth succeeds with the unbounded value |
| Interest.DayBoundary | src/logic/interest.rs:125-144 | the last second of a day is worth no more than one more compounded day |
| Interest.GrowthMonotoneInTime | src/logic/interest.rs:98-144 | for a fixed rate growth never decreases with elapsed seconds, up to five years |
| Accruals.ScaleFactorBounded | src/logic/interest.rs:68-191 | after accruals at any times the scale factor grew at most (1 + 1/SECONDS_PER_YEAR)^T over the T seconds accrued |
| Accruals.AccrualNeverOverflows | src/logic/interest.rs:68-191 | the scale factor lies in [WAD, 243 * WAD], the clock going back is the only timestamp error, and a market without fees always accrues |
| Accruals.LaterIsNotLess | src/logic/interest.rs:68-191 | accruing at a later time never leaves a smaller scale factor |
| Accruals.AccrualCharges | src/logic/interest.rs:148-188 | an accrual charges exactly the fee rate's share of the growth factor on the claims before it |
| Accruals.FeeAtLeastShare | src/logic/interest.rs:148-188 | the fee is at least the fee rate's share of what the claims grow by, less an explicit rounding |
| Accruals.FeesAreCharged | src/logic/interest.rs:148-188 | over any run the fees, swept or not, are exactly what its accruals charge, and at least the fee rates' shares of the interest less the rounding |
| Accruals.FeeWithinInterest | src/logic/interest.rs:148-188 | an accrual charges at most the growth of the lenders' claims plus one unit for each WAD of scaled supply |
| Accruals.FeesWithinInterest | src/logic/interest.rs:148-188 | over any run of calls, with deposits and fee rates changing between accruals, all fees charged, swept or not, are at most the growth of claims at each accrual plus one unit there for each WAD of supply |
| Accruals.TwoStepsCanEarnLess | fuzz/fuzz_targets/fuzz_differential_interest.rs:73-82 | at 1 bps two steps of 3 s end one unit below one step of 6 s |
| Splitting.GrowthIsNearlyUntruncated | src/logic/interest.rs:98-144 | growth lies below exact compounding by at most one part in WAD for each day and one more |
| Splitting.UntruncatedComposes | src/logic/interest.rs:98-144 | exact growths over e and e' compose to the growth over e + e' up to one part in WAD, whether or not the remainders fill a day, and gain on it by what the remainders earn on each other |
| Splitting.SplittingPays | fuzz/fuzz_targets/fuzz_differential_interest.rs:35-82 | from any factor, any number of steps over a term earns at least a single step whenever the gains of their remainders on each other outweigh one part in WAD for each whole day and five for each step |
| Splitting.TwoStepsPay | fuzz/fuzz_targets/fuzz_differential_interest.rs:35-82 | for two steps over a term the same once the remainders earn `2 * (days + 6) * WAD` on each other |
| Splitting.SplittingCostsLittle | fuzz/fuzz_targets/fuzz_differential_interest.rs:35-82 | accruing a market at any times loses at most one part in WAD for each whole day and three for each step against a single accrual, and nothing once the steps are in the lead |
| Splitting.TwoStepsFromFresh | fuzz/fuzz_targets/fuzz_differential_interest.rs:73-82 | of the asserted property, the case of two steps within a day of a fresh market: it holds if and only if the rates add up exactly or multiply to at least one unit |
| Splitting.CompoundingOutweighsRounding | fuzz/fuzz_targets/fuzz_differential_interest.rs:73-82 | of the asserted property, the case of two steps within a day from any factor: it holds once the rates multiply to four units |
| Accruals.RoundTrip | fuzz/fuzz_targets/fuzz_deposit_withdraw_roundtrip.rs:28-58 | scaling and valuing back loses the remainder in WADs rounded up, at most the factor rounded up, and at most one unit if and only if the remainder is at most one WAD |
| Accruals.DepositRoundTrip | src/processor/deposit.rs:121-153 | a deposit credits its own lender with shares of that worth and the vault with the amount |
| Accruals.DepositCanLoseTwo | fuzz/fuzz_targets/fuzz_deposit_withdraw_roundtrip.rs:47-58 | three units at a factor just below two lose two |
| Haircuts.ClaimsDoNotOverflow | src/logic/haircuts.rs:45-100 | claims and rebases of any u64 haircut succeed, with results between zero and the haircut |
| Haircuts.ContributionIs | src/logic/haircuts.rs:120-151 | a contribution that succeeds is the weight rounded up and the offset rounded down |
| Haircuts.OwedAfterClaim | src/logic/haircuts.rs:80-100 | what a claim leaves is the unrecovered share rounded up |
| Haircuts.RebaseComplementsClaim | src/logic/haircuts.rs:45-100 | what a rebase keeps and a claim pays add up to the haircut, less one unit if and only if the division has a remainder |
| Haircuts.RebaseCanDropOne | src/logic/haircuts.rs:45-65 | a haircut of one unit can vanish in a rebase that a claim would not have paid |
| Haircuts.ClaimEndpoints | src/logic/haircuts.rs:80-100 | nothing is claimable at the anchor and everything at WAD |
| Haircuts.ClaimScheduleIndependence | src/processor/claim_haircut.rs:152-247 | over n claims at rising factors, those that come to nothing refused, paid and owed add up to the haircut, the total is the single last claim less at most n - 1, and all of it at WAD |
| Haircuts.LinearisedClaimIsTight | src/logic/haircuts.rs:102-151 | the line `floor(w * t / WAD) - o` is never below the exact claim and at most one unit above |
| Haircuts.RebaseNeverGainsWeight | src/logic/haircuts.rs:45-65 | rebasing a haircut never increases its weight |
| Haircuts.RebaseWithinLine | src/logic/haircuts.rs:45-65 | what a rebase recovers exceeds the haircut's line by less than one unit |
| Haircuts.GapCostsOneUnit | src/processor/withdraw.rs:242-388 | the payout and line of a first distressed exit together cost at most one unit more than the claim given up, at every factor ahead |
| Haircuts.ResettleFactorIsGreatest | src/logic/haircuts.rs:153-193 | the computed factor is in [1, WAD], is carried unless it is 1, and is at least every carried factor |
| Invariants.CreateKeepsInv | src/processor/create_market.rs:86-312 | a market that creation accepts satisfies the invariant |
| Invariants.ShareOfAggregates | src/state/market.rs:51-64 | each aggregate is at least the part any one position contributes |
| Invariants.AccrueFacts | src/logic/interest.rs:68-191 | accrual moves only fees, factor and timestamp, upwards, and nothing at all once maturity is reached |
| Invariants.SettlementFactorBounds | src/logic/interest.rs:202-216 | the first factor is the share of the claims that the vault covers, rounded down and held within [1, WAD] |
| Invariants.WithdrawIsExit | src/processor/withdraw.rs:145-401 | a successful withdrawal starts from the accrued and settled market, pays the share and what its rebase recovers, and rewrites one position with the aggregates following |
| Invariants.ForceCloseIsExit | src/processor/force_close_position.rs:92-353 | a successful force-close is the same exit with the whole balance |
| Invariants.PayClaimFacts | src/processor/claim_haircut.rs:142-263 | a successful claim pays the exact claim or the vault's surplus, whichever is less, and re-anchors the rest |
| Invariants.ClaimAtWadPaysAll | src/processor/claim_haircut.rs:152-200 | at WAD the surplus cap never binds |
| Invariants.LinesCoverClaims | src/logic/haircuts.rs:102-151 | summed over all positions the lines cover the exact claims, with at most two units for each haircut to spare |
| Invariants.CarriedFactorIsCovered | src/processor/re_settle.rs:144-172 | a factor the O(1) sums carry is one the vault can honour lender by lender |
| Invariants.ReSettleFacts | src/processor/re_settle.rs:55-172 | a successful re-settlement changes only the factor, strictly upwards, to the computed one |
| Invariants.CollectFeesTakes | src/processor/collect_fees.rs:84-192 | a fee sweep lowers fees and vault alike and leaves every lender's claim and the haircut reserve |
| Invariants.ProcessKeepsInv | src/processor/withdraw.rs:145-401 | every successful instruction keeps the invariant: aggregates equal per-lender sums, anchors below WAD, fields in range, full cover at WAD |
| Invariants.RunKeepsInv | src/state/market.rs:51-64 | every state of every run satisfies the invariant |
| Solvency.EveryRunStaysVouched | src/processor/withdraw.rs:165-401 | over any run the vault backs remaining lenders and every line but for less than a unit for each rebase that rounds, or before the first re-settlement their shares up to the clamp |
| Solvency.ReachableMarketsAreSolvent | src/processor/force_close_position.rs:111-336 | from creation on, in every settled state the vault plus all but one of the rebases that rounded since the last re-settlement plus the clamp's shortfall covers remaining lenders and all exact claims |
| Solvency.ExitWithinAllowance | src/processor/withdraw.rs:223-422 | an exit with what it recovers asks at most one unit beyond the vault for each rebase that rounded before it, plus the clamp's shortfall |
| Solvency.EveryExitIsCovered | src/processor/withdraw.rs:293-422 | with no rebase and no clamp outstanding every exit, rebasing or not, is paid its share and what it recovers |
| Clamp.NoExitRunsShort | src/processor/force_close_position.rs:92-353 | with no rounding rebase and no clamp outstanding, or claims below WAD * (vault + 1) in a market still to settle, no withdrawal and no force-close fails for want of tokens |
| Solvency.OneRebaseLeavesNobodyShort | src/processor/withdraw.rs:293-401 | with at most one rounding rebase since the last re-settlement the vault covers everyone, claims are exact and exits that do not round are paid |
| Clamp.FirstSettlementCoversIff | src/processor/withdraw.rs:196-221 | the first settlement promises no more than the vault if and only if the claims are below WAD * (vault + 1) |
| Clamp.SettlementShortfallIff | src/processor/force_close_position.rs:111-156 | the call that settles a market, of either kind, adds no shortfall if and only if the claims it finds are below that |
| Clamp.NoClampShortfall | src/processor/withdraw.rs:165-221 | over every run whose first settlement is within reach there is never a shortfall |
| Clamp.NoClampShortfallIff | src/processor/withdraw.rs:165-221 | over a run without re-settlement there is none if and only if the first settlement is within reach |
| Clamp.SmallMarketsAreSolvent | src/processor/create_market.rs:96-125 | a market created with 243 * maxTotalSupply < WAD is solvent in every run with no allowance for the clamp |
| Shortages.TwoRebasesLeaveOneShort | src/processor/withdraw.rs:293-422 | a run from creation in which two rebasing exits leave a third lender's withdrawal failing for want of one unit |
| Shortages.DustCanPromiseTooMuch | src/processor/force_close_position.rs:111-353 | a run from creation in which force-closing a dust position settles an empty vault at 1 and leaves two units owed |
| Shortages.FullRepaymentCanStick | src/processor/re_settle.rs:107-172 | a run from creation in which the vault holds exactly the haircuts owed after a full repayment, and no claim and no re-settlement recovers any of it until two more units arrive |
| Solvency.PlainExitIsCovered | src/processor/withdraw.rs:223-422 | where everyone is covered an exit that does not round is paid its share and what it recovers, and never fails for want of tokens |
| Solvency.PlainClaimIsUncapped | src/processor/claim_haircut.rs:152-200 | where everyone is covered a claim pays its exact amount |
| Conservation.LenderConservation | src/processor/withdraw.rs:242-401 | after maturity paid plus owed is the worth of a lender's exits, and that with what is left never exceeds the worth of its shares, however it splits them |
| Conservation.MarketConservation | src/processor/force_close_position.rs:222-336 | after maturity total paid plus the haircut reserve plus remaining claims never exceeds where it started |
| Books.BooksBalance | src/processor/withdraw.rs:223-401 | over any run, before or after maturity, vault minus haircut reserve plus borrowed minus repaid moves by exactly the deposits and gifts, the worth of shares cancelled by exits, and the sweeps |
| Settlement.SettledStep | src/processor/re_settle.rs:166-172 | in a settled market no call moves the scale factor or adds supply, and the factor moves exactly on a successful re-settlement |
| Settlement.FirstSettlement | src/processor/withdraw.rs:145-221 | an unsettled market settles only by an exit past the grace period while unpaused, at the covered share of the claims rounded down |
| Settlement.SettlementFreezes | src/processor/re_settle.rs:166-172 | over any run of a settled market the same holds and each re-settlement uses up one of the steps left to WAD |
| Settlement.NoEntryAfterSettlement | src/processor/deposit.rs:108-118 | after settlement no deposit or borrow succeeds whatever the clock says |
| Settlement.ReSettleIsGreatest | src/processor/re_settle.rs:107-168 | the new factor is at least t if and only if the O(1) sums carry t |
| Settlement.ReSettleIsNearOptimal | src/logic/haircuts.rs:153-193 | for any greater factor the vault cannot cover the claims with two units more for each haircut |
| Settlement.ReSettleSucceedsIff | src/processor/re_settle.rs:55-172 | in a settled market a re-settlement succeeds if and only if its sums and products fit in 128 bits and one step above the current factor is carried; it is refused as an overflow if and only if they do not fit |
| Settlement.SolverCanOverflow | src/logic/haircuts.rs:171-193 | 341 one-unit haircuts anchored one step below WAD make the solver overflow |
| Settlement.ReSettleReachesWadIff | src/processor/re_settle.rs:107-172 | a successful re-settlement reaches WAD if and only if the vault holds remaining claims, the haircut reserve and one unit for each weight that was rounded up |
| Settlement.ReSettleIsIdempotent | src/processor/re_settle.rs:166-172 | repeating it at once is refused as no improvement |
| Settlement.FirstExitKeepsLine | src/processor/withdraw.rs:293-401 | an exit with no earlier haircut lowers `WAD * (V + O) - t * (R + W)` by at most WAD for every factor still ahead |
| Settlement.FullRecovery | src/processor/claim_haircut.rs:142-263 | at WAD the vault covers all claims and every claim succeeds and pays all that is owed |
| Settlement.FullRecoveryIsPermanent | src/processor/collect_fees.rs:84-192 | no run of calls undoes full recovery |
| Settlement.SweepsLeaveTheReserve | src/processor/withdraw_excess.rs:126-181 | an excess sweep happens only with no lenders, no fees and full recovery, and leaves exactly the haircut reserve; a fee sweep leaves claims and reserve |
| WindDown.WindDownIsClean | src/processor/force_claim_haircut.rs:166-261 | from a recovered market force-closing and force-claiming everything in any order never fails and ends with no supply, reserve, weight or offset; without fees the excess sweep then empties the vault |
| Debt.DebtMovesTogether | src/processor/borrow.rs:181-214 | a borrow, repayment or any other call moves the market's outstanding principal exactly as the borrower's global debt |
| Debt.CrossMarketDebtConservation | src/processor/repay.rs:122-184 | over any operations on any number of markets the recorded debt is the sum of the outstanding principals |
| Debt.NoLoanBeyondCapacity | src/processor/borrow.rs:181-187 | an operation that leaves debt above the capacity has not raised it |
| Debt.DebtWithinCapacity | src/processor/borrow.rs:181-214 | over any operations the debt stays within what it started with and the greatest capacity given |
| Debt.NewPortfolioAgrees | src/processor/set_borrower_whitelist.rs:85-127 | a new borrower starts with no debt |
| Debt.GlobalCheckIsRedundant | src/processor/repay.rs:127-184 | neither subtraction underflows and the global check never refuses what the per-market check allows |
| Episode.LenderLeaves | src/processor/withdraw.rs:145-401 | for any amount, a deposit, a loan of half and an exit all succeed and leave half paid, half owed, an empty vault and factor WAD/2 |
| Episode.LenderReturns | src/processor/re_settle.rs:107-172 | a repayment, a re-settlement and a claim then all succeed and leave nothing owed |
| Episode.LenderReturnsForHalf | src/processor/claim_haircut.rs:152-281 | for any amount, a repayment of half of what is owed raises the factor to three quarters, and a claim there, forced or not, pays that half |
| Decisions.ClaimSucceedsIff | src/processor/claim_haircut.rs:142-263 | a claim succeeds if and only if unpaused, settled, a haircut is anchored below the factor, the lesser of exact claim and surplus is positive and the sums fit; a forced one if and only if also past the grace period, with the same result |
| Decisions.PayClaimSucceedsIff | src/processor/force_claim_haircut.rs:166-261 | and what it then pays is that lesser amount |
| Decisions.CoveredClaimIsDue | src/processor/claim_haircut.rs:152-200 | where everyone is covered whatever is claimable is due |
| Decisions.FeeSweepIsMaximal | src/processor/collect_fees.rs:84-192 | a fee sweep succeeds if and only if unpaused, out of distress, with nobody still to settle and both fees and surplus positive, and it exhausts one of the two |
| Decisions.ExcessSucceedsIff | src/processor/withdraw_excess.rs:67-181 | the excess sweep succeeds if and only if everyone is paid or reserved for, no fees are left and something remains |
| Decisions.CreateSucceedsIff | src/processor/create_market.rs:86-164 | a market is created if and only if unpaused, the borrower whitelisted, and rate, term and cap within bounds |
| Decisions.DepositSucceedsIff | src/processor/deposit.rs:47-153 | a deposit succeeds if and only if the market is open, the amount buys a share, the cap holds and the fields can take it |
| Decisions.BorrowSucceedsIff | src/processor/borrow.rs:51-214 | a loan succeeds if and only if the market is open, the vault holds it and the borrower is whitelisted and stays within its capacity; the debt ends within the capacity |
| Decisions.RepaySucceedsIff | src/processor/repay.rs:118-184 | a repayment succeeds if and only if it is positive, unpaused, within the market's outstanding principal and the recorded debt, and the counters and vault can take it |
| Decisions.RepayInterestSucceedsIff | src/processor/repay_interest.rs:48-143 | an interest payment succeeds if and only if it is positive, unpaused and the counters and vault can take it |
| Decisions.ForceCloseSucceedsIff | src/processor/force_close_position.rs:86-353 | a force-close succeeds if and only if the grace period is over, shares remain, their price fits, the vault holds share and recovery, and the haircut left fits |
| Decisions.WithdrawSucceedsIff | src/processor/withdraw.rs:75-422 | the same for a withdrawal, with enough shares, a positive share and the minimum met |
| Decisions.MinimumOnlyDecides | src/processor/withdraw.rs:256-263 | a minimum changes nothing when the share paid meets it and is refused as PayoutBelowMinimum otherwise |
| Decisions.CloseSucceedsIff | src/processor/close_lender_position.rs:50-128 | a position is closed if and only if it is empty, and no other is touched |
| Decisions.PausedRefuses | src/processor/withdraw.rs:75-78 | a paused program refuses every call but tokens sent from outside |
| Decisions.ClaimRefusals | src/processor/claim_haircut.rs:78-200 | the error a claim gets when nothing is settled, nothing is owed, the factor has not risen, or nothing is due |
| Decisions.ExcessRefusals | src/processor/withdraw_excess.rs:126-152 | the error the excess sweep gets before settlement, in distress, and with fees left |
| Decisions.ZeroIsRefused | src/processor/deposit.rs:47-50 | a zero amount is refused as such by deposits, loans and both kinds of repayment |
| Decisions.NoSharesIsRefused | src/processor/force_close_position.rs:204-214 | an exit without shares is refused as having no balance |
| Decisions.EarlyIsNotMatured | src/processor/force_close_position.rs:91-102 | before maturity every settlement instruction answers not matured, ahead of the grace period |
| Decisions.MaturityDivides | src/processor/deposit.rs:108-112 | deposits and loans succeed only before maturity, exits and excess sweeps only from it on, forced ones only past the grace period |
| MarketAccount.ComputeGrowth | src/logic/interest.rs:98-144 | the checked steps of the growth, in order, give the specified growth or error |
| MarketAccount.HaircutWithinReserve | src/processor/withdraw.rs:319-388 | in a valid market a position's haircut and contribution are inside the aggregates, so no saturating subtraction saturates |
| MarketAccount.Market.constructor | src/processor/create_market.rs:297-312 | a new market has the given terms, factor WAD, interest from now on, and everything else zero |
| MarketAccount.Market.Create | src/processor/create_market.rs:86-312 | the checks in the program's order: a valid market, or the error of the first violated bound |
| MarketAccount.Market.AccrueInterest | src/logic/interest.rs:68-191 | updates fees, factor and timestamp in place as the specification says, and keeps the market valid |
| MarketAccount.Market.Deposit | src/processor/deposit.rs:47-153 | refusals, accrual and scaling in the program's order; on success the market stays valid with the amount in the vault, on failure no token has moved |
| MarketAccount.Market.CreditDeposit | src/processor/deposit.rs:121-250 | zero shares, cap and overflows refused; position, supply, total and vault updated |
| MarketAccount.Market.Borrow | src/processor/borrow.rs:51-214 | vault and global capacity checks, both debts raised, vault lowered; on success outstanding principal rises by the amount, on failure no token has moved |
| MarketAccount.Market.Repay | src/processor/repay.rs:118-184 | outstanding principal and global checks, both debts lowered, vault raised; on success outstanding principal falls by the amount, on failure no token has moved |
| MarketAccount.Market.RepayInterest | src/processor/repay_interest.rs:118-143 | both counters raised so that principal debt stays, vault raised; outstanding principal is unchanged |
| MarketAccount.Market.LockFactor | src/processor/withdraw.rs:165-221 | locks the factor once, from the whole vault, and keeps the market valid |
| MarketAccount.Market.RecordHaircut | src/processor/withdraw.rs:293-388 | the five-step haircut update with saturating subtractions equals the update by exact differences |
| MarketAccount.Market.Withdraw | src/processor/withdraw.rs:75-221 | guards, accrual, balance check, grace period and first settlement in order, then the payout; the lender gets at least its minimum and more than nothing, on failure no token has moved |
| MarketAccount.Market.PayWithdrawal | src/processor/withdraw.rs:223-422 | amount resolution, pricing, zero and slippage refusals, haircut, shares, totals and transfer |
| MarketAccount.Market.ForceClosePosition | src/processor/force_close_position.rs:86-156 | guards, accrual and first settlement, then the close-out; the balance ends at zero and the market valid |
| MarketAccount.Market.PayCloseOut | src/processor/force_close_position.rs:204-353 | prices and pays the whole balance, a zero payout included |
| MarketAccount.Market.ClaimHaircut | src/processor/claim_haircut.rs:56-285 | guards, then the capped claim; pays between one unit and the haircut, at the same factor |
| MarketAccount.Market.ForceClaimHaircut | src/processor/force_claim_haircut.rs:54-261 | the same after the grace period |
| MarketAccount.Market.SettleClaim | src/processor/claim_haircut.rs:216-281 | contribution out, position and reserve lowered, remainder back in at the current anchor |
| MarketAccount.Market.ReSettle | src/processor/re_settle.rs:55-172 | guards, accrual, solve, strict improvement; vault and positions untouched, the factor strictly higher |
| MarketAccount.Market.CollectFees | src/processor/collect_fees.rs:50-117 | distress and pending-lender guards, accrual, then the sweep; claims and reserve stay covered |
| MarketAccount.Market.SweepFees | src/processor/collect_fees.rs:114-192 | takes the least of fees, vault and what claims and reserve leave |
| MarketAccount.Market.WithdrawExcess | src/processor/withdraw_excess.rs:67-181 | all guards and the sweep above the reserve; the vault ends at the reserve |
| MarketAccount.Market.CloseLenderPosition | src/processor/close_lender_position.rs:50-128 | removes a position only if balance and haircut are both zero; the market stays valid |
| MarketAccount.Market.Execute | src/processor/withdraw.rs:390-422 | a transaction keeps the market valid and has exactly its instruction's effect or none |

## Left out

- ReachableMarketsAreSolvent: carries the clamp's shortfall of the first settlement as a term instead of excluding it, because the code has no guard against it; `NoClampShortfallIff` says when the term is zero and `SmallMarketsAreSolvent` drops it.
- TwoStepsFromFresh: exact only within one day of a fresh factor, because beyond it the exact condition is the truncated computation itself.
- SplittingPays: sufficient, not necessary: with remainders too small to outweigh the truncations of whole days the outcome is decided unit by unit by the truncated products; `SplittingCostsLittle` bounds it.
- TwoStepsPay: the same, for two steps.
- CompoundingOutweighsRounding: the same, within a day.
- FeeWithinInterest: allows one unit for each WAD of scaled supply, rounded up, because supplies above WAD are reachable and each WAD of them can round once.
- AccrualNeverOverflows: an accrual with a positive fee rate can still be refused when the fee does not fit in u64; that refusal is kept as the program has it.
- Account addresses, ownership, signers, discriminators, account sizes, mints and the blacklist lookup: the caller is taken as validated. `AccountMissing` stands for the error of a position account that does not exist.
- Token transfers: arithmetic on the vault. `TransferFailed` stands for the token program's refusal of an overdraft or overflow; the balances of payers and receivers are not tracked, so an inbound transfer fails only on overflow.
- Account creation, rent, the byte-zeroing loop and lamport transfer that close a position, event logs and byte layouts of stored accounts.
- Protocol setup, administrator settings and the first creation of a whitelist entry; a call carries the fee rate, pause flag, clock and whitelist entry it runs with.
- Clock readings are integers; the program's own overflow checks on i64 timestamps are kept.
- Positions are one map of the market object, so separate accounts cannot alias one another.
- Instruction parsing and dispatch on bytes; `Dispatch` selects by the instruction's name.
- `validate_market_state` and scripts: nothing to prove beyond the invariant.
