# Verified model of the reserve predictions and the bytecode linker

Palmy's scenario suite predicts, for one lending reserve and its users, the records that every
action should leave behind. This project models that prediction engine over exact integers,
the rounding kernel under it and the bytecode linker, and proves what they promise.

| file | contents |
|---|---|
| `fixed_point.dfy` | the rounding kernel: truncating division, ray products and quotients, percentages |
| `interest.dfy` | linear and third-order compounded interest, against exact compounding and against splitting |
| `rates.dfy` | utilization, the kinked rate curve, the overall rate, the depositors' share |
| `records.dfy` | reserve and user records, as values and as mutable records |
| `balances.dfy` | indexes, balances, weighted stable rates |
| `reserve_steps.dfy`, `user_steps.dfy` | both sides of every action: reference definitions and the field-by-field computations |
| `soundness.dfy`, `runs.dfy` | the reserve invariant, runs by any number of users, solvency and cash over runs |
| `outcomes.dfy` | what each action leaves in both records: amounts, mean rates, later worth |
| `conservation.dfy` | accrued claims, moving whole balances, swaps, the user's own debt, bystanders |
| `tolerance.dfy` | the two predictions of a deposit balance against the suite's tolerance |
| `coverage.dfy` | deposits stay covered by what the reserve holds and is owed |
| `rate_moves.dfy` | which way an action moves the rates |
| `stable_debt.dfy` | the stable debt token's laws: mint, burn, rebalance |
| `debt_shares.dfy` | shares of the scaled debt, and utilization above one ray |
| `witnesses.dfy` | a run at shipped rates that shows each departure at concrete amounts |
| `linker.dfy` | splicing library addresses into bytecode |

Conventions. All quantities are integers; the suite configures truncation to zero decimals
(`test-suites/test-palmy/scenario.spec.ts:22-25`), so every division truncates towards zero, for
negated amounts too. Rounding bounds are stated at a scale of two rays where half units occur. A
reserve's parameters lie in the ranges of the shipped configurations: an optimal utilization
strictly between zero and one ray, non-negative slopes, a reserve factor between 0 and 10000.

Preconditions such as `Priceable` and `BorrowDefined` only exclude divisions by zero, where the
original's number library yields a non-number. `Sound` is the invariant of reachable reserves; it
is proved of the initial reserve and of every step.

The step functions leave some accessory fields unset, which the suite's comparison skips. The model closes
them: the market rate is carried over, `lastUpdateTimestamp` becomes the time of the transaction,
and `totalStableDebtLastUpdated` too where the stable principal is reset.

Where the code departs from what it is for, the code is modelled as it is, the exact condition is
proved for all inputs, and a lemma shows a concrete input, most of them after one run from an
initialized reserve (`Witnesses.OpeningRun`):

- A swap away from the stable rate has no clamp, so the reserve's stable debt or its average rate can
  turn negative (`SwapBalancedIff`; `SwapsTurnNegative`, `SwapAverageNegative`).
- A rebalance adds wads to rays: with several stable borrowers the average rate can turn negative
  (`RebalanceBalancedIff`; `RebalanceTurnsNegative`).
- A deposit adds to the recorded liquidity without the interest accrued since, so utilization can
  exceed one ray (`DepositUtilizationIff`), and neither it, nor a variable repayment, which reuses the
  recorded stable debt, nor a borrow observed after more interest, prices what it records
  (`StepConsistentIff`; `DepositPastFullUtilization`, `RepaymentMisbooks`, `LateBorrowMisprices`).
- A variable borrow starts the user's scaled debt from the whole reserve's, so a second borrower is
  misbooked (`StepKeepsExcessIff`; `SecondBorrowerMisbooked`).
- Stable debt is not always booked alike on the user and on the supply (`StepMovesSupplyIff`): a
  deposit overwrites the user's principal with the variable debt (`DepositKeepsDebtIff`;
  `DepositErasesDebt`), a variable repayment stores the accrued principal but keeps its old timestamp,
  so interest counts twice (`RepayKeepsStableDebtIff`; `RepaymentMisbooks`), as it does after a stable
  repayment observed late (`LateRepaymentMisbooks`), and a swap to stable adds to the recorded debt
  (`UserSwapKeepsDebtIff`; `SwapForgetsInterest`).
- The debts recorded as current are not always what the records are worth (`StepRecordsWorth`;
  `DepositErasesDebt`).
- While a reserve counts no variable debt its index stands still, so a borrower it has lost count of is
  revalued by the next action (`OthersUnaffected`; `BystanderRevalued`).
- A swap to stable averages over the recorded stable total instead of the accrued one
  (`SwapAverageIff`; `SwapForgetsInterest`).
- The clamp of a stable burn can erase debt that a mint and burn should restore (`BurnUndoesMint`;
  `BurnCanEraseDebt`), and differs from the token's rule, which compares rounded weights
  (`BurnRuleGap`; `BurnRuleParts`).
- A maximal repayment observed later than it was included is worth different amounts to the two
  sides and can leave the payer a negative scaled debt (`StepCash`, `MaxRepayClears`;
  `DelayedPayoffDrifts`).
- The additive and the scaled prediction leave the suite's tolerance exactly at indexes above six rays
  whose excess does not divide a ray (`ToleranceIff`; `ToleranceExceeded`).

One promise is proved under a condition without its converse: deposits never outgrow what the reserve
holds and is owed, beyond dust, while its stable principal counts from the last action (`ClaimsCovered`).
An older principal grows by less than the rate promises on the accrued debt, and then they can
(`OldPrincipalFallsShort`).

## Model

| member | source | states |
|---|---|---|
| `FixedPoint.RayMulRounds` | test-suites/test-palmy/helpers/utils/math.ts:55-57 | on non-negative operands a ray product is the exact product over one ray, rounded half up |
| `FixedPoint.RayDivRounds` | test-suites/test-palmy/helpers/utils/math.ts:59-67 | a ray quotient is exactly the quotient rounded half up, although half of the divisor is truncated first |
| `FixedPoint.RayDivUnique` | test-suites/test-palmy/helpers/utils/math.ts:59-67 | no other integer meets that rounding, so the quotient is pinned |
| `FixedPoint.PercentMulRounds` | test-suites/test-palmy/helpers/utils/math.ts:83-88 | a percentage is rounded half up |
| `FixedPoint.RayDivRatioMono` | test-suites/test-palmy/helpers/utils/math.ts:59-67 | ray division is monotone in the ratio of its operands, across different divisors |
| `FixedPoint.RoundTrip` | test-suites/test-palmy/helpers/utils/math.ts:55-67 | scaling by an index of at least one ray and unscaling returns the amount exactly |
| `FixedPoint.RoundTripIff` | test-suites/test-palmy/helpers/utils/math.ts:55-67 | the round trip is exact for every amount if and only if the index is at least one ray |
| `FixedPoint.UnscaleWithin` | test-suites/test-palmy/helpers/utils/math.ts:55-67 | an amount within a scaled balance unscales to at most that balance |
| `Interest.CompoundedClosedForm` | test-suites/test-palmy/helpers/utils/calculations.ts:1192-1222 | the compounded factor is the binomial sum with rounded powers: both divisions are exact and the guard on the third factor agrees with the binomial coefficient |
| `Interest.CompoundedTracksExpansion` | test-suites/test-palmy/helpers/utils/calculations.ts:1192-1222 | the factor is the exact third-order expansion of per-second compounding, within half a unit per pair of seconds and (1+x)/2 units per triple |
| `Interest.CompoundedBelowExact` | test-suites/test-palmy/helpers/utils/calculations.ts:1192-1222 | third-order compounding never exceeds exact per-second compounding except by that rounding, for every rate and every time |
| `Interest.CompoundedAtLeastSimple` | test-suites/test-palmy/helpers/utils/calculations.ts:1192-1222 | it never falls below simple interest on the truncated per-second rate |
| `Interest.CompoundedMono` | test-suites/test-palmy/helpers/utils/calculations.ts:1192-1222 | the factor never shrinks as time passes |
| `Interest.SplitNeverLoses` | test-suites/test-palmy/helpers/utils/calculations.ts:1192-1222 | splitting an accrual interval loses at most the stated rounding dust, by Vandermonde's identity over rounded powers |
| `Interest.LinearBelowCompounded` | test-suites/test-palmy/helpers/utils/calculations.ts:1177-1222 | linear deposit interest stays below compounded debt interest at the same rate plus one unit per second |
| `Interest.LinearTruncates` | test-suites/test-palmy/helpers/utils/calculations.ts:1177-1190 | simple interest over the elapsed seconds, truncated once: at most one unit below the exact fraction of a year and never above it |
| `Balances.MoreUpdatesKeepDebt` | test-suites/test-palmy/helpers/utils/calculations.ts:1350-1370 | updating the debt index twice instead of once loses at most dust, for any starting index |
| `Balances.IncomeIndexesAgree` | test-suites/test-palmy/helpers/utils/calculations.ts:1328-1348 | the stored and the valuing deposit index agree if and only if utilization is non-zero or the rate has not yet earned a unit |
| `Balances.DebtIndexesAgree` | test-suites/test-palmy/helpers/utils/calculations.ts:1350-1412 | the stored and the valuing debt index agree whenever there is variable debt or no rate |
| `Balances.NothingAccrues` | test-suites/test-palmy/helpers/utils/calculations.ts:1154-1222 | without elapsed time no index and no debt moves |
| `Balances.IndexesAccrue` | test-suites/test-palmy/helpers/utils/calculations.ts:1328-1370 | each valuing index is the index of the last update times its interest factor, rounded half up, early-outs included |
| `Balances.BalancesWorth` | test-suites/test-palmy/helpers/utils/calculations.ts:1137-1152 | deposits and variable debts are worth the scaled balance times the valuing index, rounded half up |
| `Balances.StableDebtAccrues` | test-suites/test-palmy/helpers/utils/calculations.ts:1154-1175 | a stable debt is worth its principal times the compounded factor of its own rate and time, rounded half up, or the principal where one of the three early-outs applies |
| `Rates.CalcExpectedInterestRates` | test-suites/test-palmy/helpers/utils/calculations.ts:1224-1291 | the reassigning computation yields the reference rates: kinked stable and variable curves, and the depositors' share of the overall rate |
| `Rates.CalcExpectedOverallBorrowRate` | test-suites/test-palmy/helpers/utils/calculations.ts:1293-1312 | the computed rate times the whole debt is what the two kinds of borrowers pay, within one wad and half a unit per unit of debt |
| `Rates.KinkedMono` | test-suites/test-palmy/helpers/utils/calculations.ts:1244-1278 | the rate curve rises with utilization on both sides of the kink and across it |
| `Rates.KinkedCorners` | test-suites/test-palmy/helpers/utils/calculations.ts:1244-1278 | the curve equals base, base + slope1 and base + slope1 + slope2 exactly at zero, at the kink and at one ray |
| `Rates.KinkedLinear` | test-suites/test-palmy/helpers/utils/calculations.ts:1244-1278 | on either side of the kink the curve is the straight line through its corners, within half a unit plus half a slope over a ray |
| `Rates.BorrowRatesFollowUtilization` | test-suites/test-palmy/helpers/utils/calculations.ts:1239-1278 | both borrow rates are monotone in utilization and stay within their configured bounds up to full utilization |
| `Rates.UtilizationMono` | test-suites/test-palmy/helpers/utils/calculations.ts:1314-1326 | utilization is monotone in the ratio of debt to liquidity |
| `Rates.OverallTimesDebt` | test-suites/test-palmy/helpers/utils/calculations.ts:1293-1312 | the overall rate times the debt is what the two kinds of borrowers pay, within one wad and half a unit per unit of debt |
| `Rates.OverallBetweenRates` | test-suites/test-palmy/helpers/utils/calculations.ts:1293-1312 | the overall rate leaves the interval of the two rates by at most 1/2 + WAD/debt, hence by at most one unit from one wad of debt on |
| `Rates.LiquidityRateUnderOverall` | test-suites/test-palmy/helpers/utils/calculations.ts:1286-1288 | depositors never earn more than the overall borrow rate while utilization is at most one ray |
| `Rates.PromisedAtMostPaid` | test-suites/test-palmy/helpers/utils/calculations.ts:1280-1326 | what depositors are promised never exceeds what borrowers pay, up to explicit dust, at any utilization |
| `Rates.DepositorsShare` | test-suites/test-palmy/helpers/utils/calculations.ts:1280-1326 | interest is conserved: depositors earn the share left by the reserve factor of what borrowers pay, within explicit dust in both directions |
| `ReserveSteps.CalcExpectedReserveDataAfterDeposit` | test-suites/test-palmy/helpers/utils/calculations.ts:154-212 | the record filled field by field is the reference state after a deposit |
| `ReserveSteps.CalcExpectedReserveDataAfterWithdraw` | test-suites/test-palmy/helpers/utils/calculations.ts:214-283 | the same for a withdrawal, with the maximal amount resolved to the user's balance |
| `ReserveSteps.CalcExpectedReserveDataAfterBorrow` | test-suites/test-palmy/helpers/utils/calculations.ts:285-458 | the same for both borrow modes: priced at the transaction, totalled at the current time |
| `ReserveSteps.CalcStableBurn` | test-suites/test-palmy/helpers/utils/calculations.ts:513-540 | the result is never negative; the burn takes out exactly its amount if and only if it takes all or leaves more debt than excess interest weight, and otherwise leaves neither debt nor rate |
| `ReserveSteps.BurnSurvivesIff` | test-suites/test-palmy/helpers/utils/calculations.ts:513-540 | that condition for all amounts, rates and debts |
| `ReserveSteps.CalcExpectedReserveDataAfterRepay` | test-suites/test-palmy/helpers/utils/calculations.ts:460-592 | the same for both repay modes, with the maximal amount of either sign |
| `ReserveSteps.CalcExpectedReserveDataAfterSwapRateMode` | test-suites/test-palmy/helpers/utils/calculations.ts:770-878 | the same for swapping either way |
| `ReserveSteps.CalcExpectedReserveDataAfterStableRateRebalance` | test-suites/test-palmy/helpers/utils/calculations.ts:945-1029 | the same for a rebalance: debt out at the old rate, in at the offered one |
| `UserSteps.CalcExpectedUserDataAfterDeposit` | test-suites/test-palmy/helpers/utils/calculations.ts:15-84 | the user record after a deposit, including the overwritten stable principal |
| `UserSteps.CalcExpectedUserDataAfterWithdraw` | test-suites/test-palmy/helpers/utils/calculations.ts:86-152 | the user record after a withdrawal, with the collateral flag |
| `UserSteps.CalcExpectedUserDataAfterBorrow` | test-suites/test-palmy/helpers/utils/calculations.ts:594-673 | the user record after borrowing in either mode |
| `UserSteps.CalcExpectedUserDataAfterRepay` | test-suites/test-palmy/helpers/utils/calculations.ts:675-755 | the user record after repaying in either mode, by the user or for another |
| `UserSteps.CalcExpectedUserDataAfterSetUseAsCollateral` | test-suites/test-palmy/helpers/utils/calculations.ts:757-768 | only the collateral flag changes |
| `UserSteps.CalcExpectedUserDataAfterSwapRateMode` | test-suites/test-palmy/helpers/utils/calculations.ts:880-943 | the user record after a swap |
| `UserSteps.CalcExpectedUserDataAfterStableRateRebalance` | test-suites/test-palmy/helpers/utils/calculations.ts:1031-1076 | the user record after a rebalance |
| `Soundness.RepricedSound` | test-suites/test-palmy/helpers/utils/calculations.ts:194-209 | pricing a balanced reserve yields non-negative rates, no deposit rate at zero utilization, and a fair share of the interest |
| `Soundness.RepayBalancedIff` | test-suites/test-palmy/helpers/utils/calculations.ts:505-560 | a repayment keeps the reserve balanced if and only if it is stable, thanks to its clamps, or unscales to at most the reserve's scaled debt |
| `Soundness.SwapBalancedIff` | test-suites/test-palmy/helpers/utils/calculations.ts:812-851 | a swap, which has no clamp, keeps the reserve balanced if and only if the stable debt taken out is all of it or light enough for the average, or the variable debt unscales to at most the reserve's |
| `Soundness.RebalanceBalancedIff` | test-suites/test-palmy/helpers/utils/calculations.ts:945-1005 | rebalancing one of any number of stable borrowers keeps the reserve balanced if and only if there is nothing to average over or the weight of the second average stays above minus its divisor |
| `Soundness.BorrowSound` | test-suites/test-palmy/helpers/utils/calculations.ts:285-458 | a borrow within the available liquidity keeps the reserve sound, also when its totals are brought forward to a later current time |
| `Runs.ReserveStep` | test-suites/test-palmy/helpers/utils/calculations.ts:154-1029 | every enabled action yields a sound reserve, never lowers an index, and moves exactly the resolved cash |
| `Runs.Run` | test-suites/test-palmy/helpers/utils/calculations.ts:154-592 | over every run indexes only grow and stay at least one ray, and debts, rates, scaled debt and available liquidity stay non-negative |
| `Runs.ReachableSound` | test-suites/test-palmy/helpers/utils/calculations.ts:154-592 | the same from a newly initialized reserve, for any number of users |
| `Runs.RunSolvent` | test-suites/test-palmy/helpers/utils/calculations.ts:1280-1326 | over every run, with any delays, the rates are those of the record they were last set for; at its debts depositors are promised their share of what borrowers pay, and never more; and debts have only grown since |
| `Runs.StepPrices` | test-suites/test-palmy/helpers/utils/calculations.ts:285-458 | every action records what it priced, except that a borrow observed later records debts that have grown by then |
| `Runs.InitialSolvent` | test-suites/test-palmy/helpers/utils/calculations.ts:1280-1326 | an initialized reserve is solvent, so the same holds of every run from there |
| `Runs.StepCash` | test-suites/test-palmy/helpers/utils/calculations.ts:309-310 | an action makes or loses no cash, except a repayment by exactly the difference of its amount at inclusion and its amount when observed |
| `Runs.RunConservesCash` | test-suites/test-palmy/helpers/utils/calculations.ts:487-494 | wallets and available liquidity keep their sum over every run whose maximal repayments are observed without delay, so both sides resolve the maximal amount alike |
| `Runs.RunUsersSound` | test-suites/test-palmy/helpers/utils/calculations.ts:15-755 | when amounts stay within own balances no user's scaled balance, debt or rate becomes negative over any run, observed with any delay |
| `Conservation.StepKeepsClaims` | test-suites/test-palmy/helpers/utils/calculations.ts:154-1029 | accrued claims change by the cash flowing in and nothing else: exactly, or within the stated rounding where scaled debt moves; a stable repayment that a clamp catches erases the whole debt instead of the amount paid |
| `Conservation.MaxWithdrawEmpties` | test-suites/test-palmy/helpers/utils/calculations.ts:97-114 | a maximal withdrawal leaves a scaled balance of exactly zero |
| `Conservation.MaxRepayClears` | test-suites/test-palmy/helpers/utils/calculations.ts:548-550 | a maximal variable repayment lowers the reserve's scaled debt by exactly the user's; the payer's record is cleared if and only if the debt has grown by less than half an index unit when observed, and is negative otherwise |
| `Conservation.SwapToStable` | test-suites/test-palmy/helpers/utils/calculations.ts:831-851 | swapping to stable keeps the accrued debt within one unit and lowers the reserve's scaled debt by exactly the user's |
| `Conservation.SwapToVariable` | test-suites/test-palmy/helpers/utils/calculations.ts:812-830 | swapping any stable debt within the reserve's to variable keeps the accrued debt within one unit and half an index unit, whatever the rates |
| `Conservation.UserSwapKeepsDebtIff` | test-suites/test-palmy/helpers/utils/calculations.ts:923-938 | a swap to stable keeps the user's own debt if and only if the recorded stable debt was accrued up to the swap |
| `Conservation.DepositKeepsDebtIff` | test-suites/test-palmy/helpers/utils/calculations.ts:68-81 | a deposit keeps the user's stable debt if and only if the stable principal equals the variable debt that overwrites it |
| `Conservation.RepayKeepsStableDebtIff` | test-suites/test-palmy/helpers/utils/calculations.ts:723-726 | a variable repayment keeps the user's stable debt if and only if no interest has accrued on it, which otherwise counts twice |
| `Conservation.OthersUnaffected` | specs/StableDebtToken.spec:14-36 | an action changes no deposit and no stable debt of any other user, and no variable debt unless the reserve counts none and that debt has grown |
| `Outcomes.CashMovesAmount` | test-suites/test-palmy/helpers/utils/calculations.ts:472-494 | a deposit, withdrawal, borrow or repayment in either mode moves the reserve's liquidity and the user's wallet by its literal amount, and nothing else moves cash |
| `Outcomes.CashMovesBalance` | test-suites/test-palmy/helpers/utils/calculations.ts:701-749 | the maximal amount moves the whole balance: each side values it at its own time, and a maximal withdrawal or stable repayment leaves none |
| `Outcomes.RepaymentLowersDebt` | test-suites/test-palmy/helpers/utils/calculations.ts:548-563 | a partial variable repayment lowers the recorded debt of the reserve and of the user by its literal amount, within one unit and half an index unit |
| `Outcomes.RepaymentLowersStableDebt` | test-suites/test-palmy/helpers/utils/calculations.ts:505-540 | a partial stable repayment lowers the user's debt by exactly its amount, and the reserve's too unless a clamp erases it |
| `Outcomes.RepaidForAnother` | test-suites/test-palmy/helpers/utils/calculations.ts:747-752 | repaying on behalf of another user changes the same debts but leaves that record's wallet alone |
| `Outcomes.BorrowSetsMeanRate` | test-suites/test-palmy/helpers/utils/calculations.ts:607-623 | after a stable borrow the user owes the accrued debt plus the amount, at the mean of the user's own and the offered rate, rounded down |
| `Outcomes.SwapSetsMeanRate` | test-suites/test-palmy/helpers/utils/calculations.ts:923-935 | after a swap to stable the user's rate is the mean of the own rate on the stable debt and the offered one on the variable debt, rounded down |
| `Outcomes.RepaymentKeepsRate` | test-suites/test-palmy/helpers/utils/calculations.ts:706-721 | what a stable repayment leaves keeps accruing at the user's rate at every later time; rate and time are forgotten when nothing is left |
| `Outcomes.StableDebtLater` | test-suites/test-palmy/helpers/utils/calculations.ts:594-1076 | what the user's stable debt is worth at every later time, after each of the actions |
| `Outcomes.BorrowAccruesTotals` | test-suites/test-palmy/helpers/utils/calculations.ts:357-458 | a borrow records both debts accrued to the observation at the rates and times it set, and the liquidity and utilization that follow |
| `Outcomes.StepKeepsTheRest` | test-suites/test-palmy/helpers/utils/calculations.ts:15-1076 | what each action leaves alone: deposits and withdrawals the debts (but for the stable principal that a deposit overwrites), everything else the deposit, borrows and repayments the debt of the other rate mode |
| `Outcomes.StepSetsCollateral` | test-suites/test-palmy/helpers/utils/calculations.ts:138-147 | a first deposit enables the collateral, withdrawing all disables it, and otherwise only the explicit action changes it |
| `Outcomes.StepRecordsWorth` | test-suites/test-palmy/helpers/utils/calculations.ts:15-1076 | with any delay, the recorded deposit is what the new records are worth, and the recorded debts are if and only if the stable principal was not overwritten or stored accrued, and the variable debt neither met a standing index nor was shown late by a stable repayment |
| `Tolerance.ToleranceIff` | test-suites/test-palmy/helpers/actions.ts:67-74 | adding to a scaled balance stays within the tolerance of three for every balance and amount if and only if the index is at most six rays or exceeds them by a divisor of a ray |
| `Tolerance.DepositsToleratedIff` | test-suites/test-palmy/helpers/utils/calculations.ts:47-57 | the same for the records: every deposit by every user is predicted within the tolerance |
| `Tolerance.WithdrawalsToleratedIff` | test-suites/test-palmy/helpers/utils/calculations.ts:107-114 | the same for every withdrawal within the balance |
| `Tolerance.DepositPredictionsAgree` | test-suites/test-palmy/helpers/utils/calculations.ts:47-57 | at any index the additive and the scaled prediction of a deposit balance differ by at most 1 + index/(2 RAY) |
| `Tolerance.WithdrawPredictionsAgree` | test-suites/test-palmy/helpers/utils/calculations.ts:107-114 | the same for a withdrawal |
| `Tolerance.ToleranceExceeded` | test-suites/test-palmy/helpers/actions.ts:67-74 | concrete balances missed by four, six units above six rays and at eight rays |
| `RateMoves.StepConsistentIff` | test-suites/test-palmy/helpers/utils/calculations.ts:163-168 | prices match totals after an action if and only if the recorded liquidity (deposit) or the recorded stable debt (variable repayment) was up to date, or the debts have not grown until observed (borrow) |
| `RateMoves.DepositLowersRates` | test-suites/test-palmy/helpers/utils/calculations.ts:194-209 | in a consistent reserve a deposit never raises any of the three rates |
| `RateMoves.RepayLowersBorrowRates` | test-suites/test-palmy/helpers/utils/calculations.ts:547-587 | a variable repayment never raises either borrow rate |
| `RateMoves.BorrowRaisesBorrowRates` | test-suites/test-palmy/helpers/utils/calculations.ts:387-435 | a variable borrow never lowers either borrow rate |
| `Coverage.ClaimsCovered` | test-suites/test-palmy/helpers/utils/calculations.ts:1154-1222 | solvency of balances: after pricing all debts up to date with a restarted stable principal, deposits worth at most the total liquidity stay worth at most what the reserve holds and is owed, at every later time, up to explicit dust |
| `Coverage.StepCovers` | test-suites/test-palmy/helpers/utils/calculations.ts:285-1029 | so it is after every stable borrow or repayment, swap and rebalance |
| `StableDebtLaws.MintAdditive` | specs/StableDebtToken.spec:118-142 | minting x then y at one time and offered rate gives the principal of x + y exactly and a rate at most one unit lower, never higher, for non-zero starting rates too |
| `StableDebtLaws.MintAdditiveReserve` | test-suites/test-palmy/helpers/utils/calculations.ts:1101-1117 | the reserve's average rate is additive in the same sense |
| `StableDebtLaws.BurnUndoesMint` | test-suites/test-palmy/helpers/utils/calculations.ts:1101-1117 | a burn, at any rate, restores the minted-over debt if and only if the remainder dropped by the mint and the excess of the burn rate stay together below (average + 1) * debt; at the same rate the average then never rises and drops by less than (debt + amount)/debt + 1 |
| `StableDebtLaws.RepayUndoesBorrow` | specs/StableDebtToken.spec:170-184 | the same through both records: borrow, then repay at the borrower's own mean rate |
| `StableDebtLaws.BurnCanEraseDebt` | test-suites/test-palmy/helpers/utils/calculations.ts:531-539 | a concrete mint and burn after which the clamp erases debt that was there before |
| `StableDebtLaws.MintMovesSupply` | specs/StableDebtToken.spec:38-56 | a mint changes the user's balance and the supply by the same amount |
| `StableDebtLaws.StepMovesSupplyIff` | specs/StableDebtToken.spec:38-101 | every action, burns included and observed with any delay, changes the user's stable balance and the supply by the same amount if and only if it books them alike: the exact condition for the four actions that may not |
| `StableDebtLaws.SwapAverageIff` | test-suites/test-palmy/helpers/utils/calculations.ts:842-851 | the truncated average of a swap to stable over the recorded total equals that over the accrued one if and only if the missing interest, weighted by the rate change, fits with the remainder into the total; otherwise it leans towards the offered rate |
| `StableDebtLaws.SwapRecordsAverage` | test-suites/test-palmy/helpers/utils/calculations.ts:842-851 | the same for the reserve record |
| `StableDebtLaws.StepKeepsStableWeight` | test-suites/test-palmy/helpers/utils/calculations.ts:1101-1117 | borrowing, repaying and swapping away stable debt change average rate times principal by the interest added or removed, within less than one unit per unit of debt |
| `StableDebtLaws.BurnErasesIff` | specs/StableDebtToken.spec:59-101 | exactly when a burn leaves no supply; otherwise it lowers the supply by its amount, like the user's balance (`StepMovesSupplyIff`) |
| `StableDebtLaws.BurnRuleGap` | specs/StableDebtToken.spec:71-88 | the prediction never erases where the token's rule over rounded weights does not, and departs from it exactly where the rounded weight burnt reaches the whole but the exact excess stays below the remaining debt |
| `StableDebtLaws.BurnRuleParts` | contracts/protocol/tokenization/StableDebtToken.sol:207-221 | concrete burns that the token erases and the prediction does not |
| `StableDebtLaws.RebalanceExactIff` | test-suites/test-palmy/helpers/utils/calculations.ts:1119-1135 | rebalancing the sole borrower returns every offered rate exactly if and only if the debt is at least one wad |
| `StableDebtLaws.RebalanceAverages` | test-suites/test-palmy/helpers/utils/calculations.ts:1119-1135 | with any number of borrowers the average is the mean of its two weights, of a debt in wads and a change in rays, within two units plus three rays over the divisor |
| `StableDebtLaws.RebalanceRecordsAverage` | test-suites/test-palmy/helpers/utils/calculations.ts:957-1005 | the reserve records two such means in turn: the debtor out at the old rate, in at the offered one |
| `StableDebtLaws.RebalanceSoleBorrower` | test-suites/test-palmy/helpers/utils/calculations.ts:992-1005 | then the reserve's average and the user's rate both become the offered rate |
| `DebtShares.StepKeepsExcessIff` | test-suites/test-palmy/helpers/utils/calculations.ts:633-636 | the users' scaled debts keep adding up to the reserve's if and only if no variable borrower differs from the whole reserve |
| `DebtShares.RunKeepsSole` | test-suites/test-palmy/helpers/utils/calculations.ts:633-636 | with a single borrower the user's scaled debt equals the reserve's over every run |
| `DebtShares.SoleBorrowerCanClear` | test-suites/test-palmy/helpers/utils/calculations.ts:547-550 | after any such run a maximal repayment leaves no variable debt |
| `DebtShares.SecondBorrowerMisbooked` | test-suites/test-palmy/helpers/utils/calculations.ts:633-636 | a concrete second borrower booked with the first one's debt |
| `DebtShares.DepositUtilizationIff` | test-suites/test-palmy/helpers/utils/calculations.ts:163-198 | a deposit keeps utilization within one ray if and only if the accrued debt exceeds the recorded liquidity plus the deposit by less than that sum over two rays |
| `DebtShares.OtherActionsBoundUtilization` | test-suites/test-palmy/helpers/utils/calculations.ts:260-269 | every other action leaves utilization within one ray |
| `Witnesses.OpeningRun` | markets/palmy/rateStrategies.ts:46-54 | an enabled run of a deposit, two stable borrows and a variable borrow at shipped rates, with every record it leaves |
| `Witnesses.DepositPastFullUtilization` | test-suites/test-palmy/helpers/utils/calculations.ts:163-198 | after that run a deposit of one unit records more than full utilization and prices that do not match its totals |
| `Witnesses.DepositErasesDebt` | test-suites/test-palmy/helpers/utils/calculations.ts:68-81 | there a deposit by the stable borrower loses the whole stable debt, which the record still shows as current |
| `Witnesses.RepaymentMisbooks` | test-suites/test-palmy/helpers/utils/calculations.ts:723-726 | there a variable repayment counts stable interest twice and prices with an old stable debt |
| `Witnesses.DelayedPayoffDrifts` | test-suites/test-palmy/helpers/utils/calculations.ts:309-310 | there a maximal repayment observed a second late loses cash and leaves a negative scaled debt |
| `Witnesses.SwapForgetsInterest` | test-suites/test-palmy/helpers/utils/calculations.ts:923-938 | there a swap to stable drops accrued interest and raises the average too far |
| `Witnesses.SwapsTurnNegative` | test-suites/test-palmy/helpers/utils/calculations.ts:812-830 | there both stable borrowers swap away in turn, and the second swap leaves the reserve a negative stable debt |
| `Witnesses.SwapAverageNegative` | test-suites/test-palmy/helpers/utils/calculations.ts:825-830 | a swap of 5 at rate 5 out of a debt of 10 at average 2 leaves any such sound reserve a negative average |
| `Witnesses.SwapAverageInput` | test-suites/test-palmy/helpers/utils/calculations.ts:825-830 | a sound reserve and a user like that |
| `Witnesses.LateBorrowMisprices` | test-suites/test-palmy/helpers/utils/calculations.ts:387-458 | a borrow of the run, observed ten seconds late, records prices that do not match its totals |
| `Witnesses.LateRepaymentMisbooks` | test-suites/test-palmy/helpers/utils/calculations.ts:694-720 | after the run a stable repayment observed a second late changes balance and supply differently |
| `Witnesses.BystanderRevalued` | test-suites/test-palmy/helpers/utils/calculations.ts:1399-1412 | a bystander's variable debt that the next action revalues |
| `Witnesses.SmallRun` | markets/palmy/rateStrategies.ts:46-54 | another run, of a deposit and two stable borrows, with the reserve it leaves |
| `Witnesses.RebalanceTurnsNegative` | test-suites/test-palmy/helpers/utils/calculations.ts:945-1005 | after it, rebalancing one of the two borrowers turns the average negative |
| `Witnesses.UnresetConsistent` | test-suites/test-palmy/helpers/utils/calculations.ts:1154-1175 | a record up to date a year after its stable principal |
| `Witnesses.OldPrincipalFallsShort` | test-suites/test-palmy/helpers/utils/calculations.ts:1154-1175 | a second later its deposits exceed all claims by far more than dust |
| `Linker.LinkBytecode` | helpers/contracts-helpers.ts:202-223 | the nested loops link the listed placements one after the other, skipping unknown libraries, for any input |
| `Linker.LinkedChars` | helpers/contracts-helpers.ts:213-218 | with in-bounds disjoint ranges the length is kept, each given address fills exactly its ranges, and every other character is unchanged |
| `Linker.OrderIndependent` | helpers/contracts-helpers.ts:205-206 | the result does not depend on the order or repetition of the placements |
| `Linker.Idempotent` | helpers/contracts-helpers.ts:213-218 | linking again changes nothing |
| `Linker.FilePlacementsAre` | helpers/contracts-helpers.ts:205-213 | the placements visited are exactly those the references list |
| `Linker.ArtifactLinking` | helpers/contracts-helpers.ts:202-223 | all of this for any enumeration of the same references |
| `StableDebtLaws.BurnAdditive` | specs/StableDebtToken.spec:155-167 | burning x then y leaves the balance of burning x + y |
| `StableDebtLaws.UserBurnUndoesMint` | specs/StableDebtToken.spec:170-184 | for the user the burn restores the balance exactly |

## Left out

- The Solidity protocol and its tokens, except the rule by which a burn empties the supply: not part of this model; `specs/UserConfiguration.spec` and the rules about contract methods that nothing predicts are not either.
- Sending transactions, time travel, gas, scenario dispatch, deployment and migration tasks, and the JSON database: input and output only.
- The lookup of a reserve's parameters by symbol: the parameters are an argument; an unknown symbol, which throws in the original, is not modelled.
- `address`, `symbol`, `decimals` and `lTokenAddress` of a reserve record, and the `variableBorrowIndex` and `principalVariableDebt` extras of a user record, which no balance depends on.
- Division by zero in the number library (not-a-number and infinity): excluded by preconditions.
- 256-bit overflow: the original computes with unbounded integers.
- A purpose for a rebalance average with several stable borrowers: it adds wads to rays, so it is the mean of mismatched weights that `RebalanceRecordsAverage` states, and its sign is that of `RebalanceBalancedIff`.
- Unused kernel operations (`wadMul`, `wadDiv`, `rayToWad`, `percentDiv`): no prediction calls them.
