/** What each action leaves in both records, in terms of its amount, the means of its rates and what the
    records are worth later (test-suites/test-palmy/helpers/utils/calculations.ts). */
module Outcomes {
  import opened FixedPoint
  import opened Interest
  import opened Rates
  import opened Records
  import opened Balances
  import opened ReserveSteps
  import opened UserSteps
  import opened Soundness
  import opened Runs
  import opened Conservation
  import opened StableDebtLaws

  // ---------- Amounts ----------

  /** Cash enters and leaves by the literal amount, unless that is the maximal one. */
  lemma CashMovesAmount(r: Reserve, u: User, e: Event, p: ReserveParams)
    requires Sound(r, e.tx) && 0 < e.tx <= e.current && ActionEnabled(r, u, e)
    ensures e.action.Deposit? ==>
              && ReserveStep(r, u, e, p).availableLiquidity == r.availableLiquidity + e.action.amount
              && UserStep(r, u, e, p).walletBalance == u.walletBalance - e.action.amount
    ensures e.action.Withdraw? && e.action.amount != MAX_UINT_AMOUNT ==>
              && ReserveStep(r, u, e, p).availableLiquidity == r.availableLiquidity - e.action.amount
              && UserStep(r, u, e, p).walletBalance == u.walletBalance + e.action.amount
    ensures e.action.Borrow? ==>
              && ReserveStep(r, u, e, p).availableLiquidity == r.availableLiquidity - e.action.amount
              && UserStep(r, u, e, p).walletBalance == u.walletBalance + e.action.amount
    ensures e.action.Repay? && Abs(e.action.amount) != MAX_UINT_AMOUNT ==>
              && ReserveStep(r, u, e, p).availableLiquidity == r.availableLiquidity + e.action.amount
              && UserStep(r, u, e, p).walletBalance == u.walletBalance - e.action.amount
    ensures !e.action.Deposit? && !e.action.Withdraw? && !e.action.Borrow? && !e.action.Repay? ==>
              && ReserveStep(r, u, e, p).availableLiquidity == r.availableLiquidity
              && UserStep(r, u, e, p).walletBalance == u.walletBalance
  {
    hide RayMul, RayDiv, LTokenBalance, VariableDebtBalance, StableDebtBalance, NormalizedDebt, UserStableRate,
      ReserveStep;
  }

  /** The maximal amount moves the whole balance: each side values it at its own time. */
  lemma CashMovesBalance(r: Reserve, u: User, e: Event, p: ReserveParams)
    requires Sound(r, e.tx) && 0 < e.tx <= e.current && ActionEnabled(r, u, e)
    ensures e.action.Withdraw? && e.action.amount == MAX_UINT_AMOUNT ==>
              && ReserveStep(r, u, e, p).availableLiquidity == r.availableLiquidity - LTokenBalance(r, u, e.tx)
              && UserStep(r, u, e, p).walletBalance == u.walletBalance + LTokenBalance(r, u, e.tx)
              && UserStep(r, u, e, p).currentLTokenBalance == 0
    ensures e.action.Repay? && e.action.mode == Stable && Abs(e.action.amount) == MAX_UINT_AMOUNT ==>
              && ReserveStep(r, u, e, p).availableLiquidity == r.availableLiquidity + UserStableDebt(u, e.tx)
              && UserStep(r, u, e, p).walletBalance == u.walletBalance - UserStableDebt(u, e.current)
              && UserStep(r, u, e, p).principalStableDebt == 0 && UserStep(r, u, e, p).currentStableDebt == 0
    ensures e.action.Repay? && e.action.mode != Stable && Abs(e.action.amount) == MAX_UINT_AMOUNT ==>
              && ReserveStep(r, u, e, p).availableLiquidity == r.availableLiquidity + VariableDebtBalance(r, u, e.tx)
              && UserStep(r, u, e, p).walletBalance == u.walletBalance - VariableDebtBalance(r, u, e.current)
  {
    hide RayMul, RayDiv, LTokenBalance, VariableDebtBalance, StableDebtBalance, NormalizedDebt, UserStableRate,
      ReserveStep;
  }

  /** A partial variable repayment lowers the recorded variable debt of the reserve, and of a user who
      owes that much, by its amount, within one unit and half an index unit. */
  lemma RepaymentLowersDebt(amount: int, mode: RateMode, r: Reserve, u: User, tx: int, current: int, p: ReserveParams)
    requires Sound(r, tx) && 0 < tx <= current && mode != Stable && 0 <= amount && Abs(amount) != MAX_UINT_AMOUNT
    requires ScaledWithin(amount, r, tx)
    ensures RepayDefined(amount, mode, r, u, tx)
    ensures var after := AfterRepay(amount, mode, r, u, tx, p);
            var index := after.variableBorrowIndex;
            && index == VariableBorrowIndex(r, tx) >= RAY
            && Near(2 * RAY * (RayMul(r.scaledVariableDebt, index) - after.totalVariableDebt), 2 * RAY * amount,
                    2 * RAY + index)
            && (RayDiv(amount, index) <= u.scaledVariableDebt ==>
                  var user := UserAfterRepay(amount, mode, r, after, u, "user", "user", tx, current);
                  Near(2 * RAY * (RayMul(u.scaledVariableDebt, index) - user.currentVariableDebt), 2 * RAY * amount,
                       2 * RAY + index))
  {
    hide RayMul, RayDiv, LiquidityIndex, VariableBorrowIndex, TotalStableDebt, RatesFor, UtilizationRate, Solvent, Near,
      StableDebtBalance, LTokenBalance, VariableDebtBalance;
    RepayBalancedIff(amount, mode, r, u, tx);
    RepricedSound(RepayMoved(amount, mode, r, u, tx), tx, p);
    var index := VariableBorrowIndex(r, tx);
    ScaledSub(r.scaledVariableDebt, amount, index);
    if RayDiv(amount, index) <= u.scaledVariableDebt {
      ScaledSub(u.scaledVariableDebt, amount, index);
    }
  }

  /** A partial stable repayment lowers the user's stable debt by its amount, and the reserve's too
      unless a clamp applies. */
  lemma RepaymentLowersStableDebt(amount: int, r: Reserve, u: User, tx: int, current: int, p: ReserveParams)
    requires Sound(r, tx) && 0 < tx <= current && 0 <= amount && Abs(amount) != MAX_UINT_AMOUNT
    ensures RepayDefined(amount, Stable, r, u, tx)
    ensures var after, debt := AfterRepay(amount, Stable, r, u, tx, p), StableDebtUntil(r, tx);
            && UserAfterRepay(amount, Stable, r, after, u, "user", "user", tx, current).currentStableDebt
               == UserStableDebt(u, current) - amount
            && after.principalStableDebt
               == if StableSurvives(r.averageStableBorrowRate, debt, amount, u.stableBorrowRate)
                  then debt - amount else 0
  {
    hide RayMul, RayDiv, LiquidityIndex, VariableBorrowIndex, TotalStableDebt, RatesFor, UtilizationRate, Solvent,
      StableDebtBalance, LTokenBalance, VariableDebtBalance, StableBurn, StableSurvives;
    RepayBalancedIff(amount, Stable, r, u, tx);
    RepricedSound(RepayMoved(amount, Stable, r, u, tx), tx, p);
    BurnSurvivesIff(r.averageStableBorrowRate, StableDebtUntil(r, tx), amount, u.stableBorrowRate);
  }

  /** Repaying for somebody else changes the debts just the same, and no wallet of the debtor. */
  lemma RepaidForAnother(amount: int, mode: RateMode, r: Reserve, after: Reserve, u: User, user: string,
                         onBehalfOf: string, tx: int, current: int)
    requires mode != Stable ==> after.variableBorrowIndex != 0
    ensures user != onBehalfOf ==>
              UserAfterRepay(amount, mode, r, after, u, user, onBehalfOf, tx, current)
              == UserAfterRepay(amount, mode, r, after, u, user, user, tx, current).(walletBalance := u.walletBalance)
    ensures user == onBehalfOf && Abs(amount) != MAX_UINT_AMOUNT ==>
              UserAfterRepay(amount, mode, r, after, u, user, onBehalfOf, tx, current).walletBalance
              == u.walletBalance - amount
  {
    hide RayMul, RayDiv, StableDebtBalance, LTokenBalance, VariableDebtBalance;
  }

  // ---------- The user's stable rate ----------

  /** m is the mean of rate1 on d1 and rate2 on d2, rounded down. */
  predicate MeanRate(m: int, d1: int, rate1: int, d2: int, rate2: int) {
    m * (d1 + d2) <= d1 * rate1 + d2 * rate2 < m * (d1 + d2) + d1 + d2
  }

  /** After a stable borrow the user owes the debt of before, accrued, and the amount at the mean of the
      user's own rate and the offered one. */
  lemma BorrowSetsMeanRate(amount: int, r: Reserve, after: Reserve, u: User, tx: int, current: int)
    requires UserStableDebt(u, tx) >= 0 && u.stableBorrowRate >= 0 && amount >= 0 && r.stableBorrowRate >= 0
    requires UserStableDebt(u, tx) + amount > 0
    ensures var user := UserAfterBorrow(amount, Stable, r, after, u, tx, current);
            && user.principalStableDebt == UserStableDebt(u, tx) + amount
            && MeanRate(user.stableBorrowRate, UserStableDebt(u, tx), u.stableBorrowRate, amount, r.stableBorrowRate)
  {
    hide UserStableRate, StableDebtBalance, RayMul, NormalizedDebt, LTokenBalance;
    MeanFloor(UserStableDebt(u, tx), u.stableBorrowRate, amount, r.stableBorrowRate);
  }

  /** After a swap to stable the user's rate is the mean of the user's own rate on the stable debt and
      the offered one on the variable debt. */
  lemma SwapSetsMeanRate(r: Reserve, after: Reserve, u: User, tx: int)
    requires UserStableDebt(u, tx) >= 0 && u.stableBorrowRate >= 0
    requires VariableDebtBalance(r, u, tx) >= 0 && r.stableBorrowRate >= 0
    requires UserStableDebt(u, tx) + VariableDebtBalance(r, u, tx) > 0
    ensures MeanRate(UserAfterSwapRateMode(r, after, u, Variable, tx).stableBorrowRate, UserStableDebt(u, tx),
                     u.stableBorrowRate, VariableDebtBalance(r, u, tx), r.stableBorrowRate)
  {
    hide UserStableRate, StableDebtBalance, RayMul, VariableDebtBalance, LTokenBalance;
    MeanFloor(UserStableDebt(u, tx), u.stableBorrowRate, VariableDebtBalance(r, u, tx), r.stableBorrowRate);
  }

  /** A stable repayment keeps the user's rate on what is left, which accrues at it from then on; when
      nothing is left, rate and time are forgotten. */
  lemma RepaymentKeepsRate(amount: int, r: Reserve, after: Reserve, u: User, tx: int, current: int, t: int)
    ensures var user := UserAfterRepay(amount, Stable, r, after, u, "user", "user", tx, current);
            && (user.principalStableDebt != 0 ==>
                  && user.stableBorrowRate == u.stableBorrowRate
                  && UserStableDebt(user, t) == StableDebtBalance(user.principalStableDebt, u.stableBorrowRate, tx, t))
            && (user.principalStableDebt == 0 ==> user.stableBorrowRate == 0 && user.stableRateLastUpdated == 0)
  {
    hide RayMul, StableDebtBalance, LTokenBalance, VariableDebtBalance;
  }

  /** What the user's stable debt is worth at every later time: an action that sets the rate restarts the
      interest at its own time, and every other one leaves rate and time alone. */
  lemma StableDebtLater(r: Reserve, u: User, e: Event, t: int, p: ReserveParams)
    requires Sound(r, e.tx) && 0 < e.tx <= e.current && ActionEnabled(r, u, e)
    ensures var user, after := UserStep(r, u, e, p), ReserveStep(r, u, e, p);
            var restarted := StableDebtBalance(user.principalStableDebt, user.stableBorrowRate, e.tx, t);
            match e.action
            case Deposit(_) =>
              UserStableDebt(user, t)
              == StableDebtBalance(VariableDebtBalance(r, u, e.tx), u.stableBorrowRate, u.stableRateLastUpdated, t)
            case Borrow(_, mode) =>
              UserStableDebt(user, t) == if mode == Stable then restarted else UserStableDebt(u, t)
            case Repay(_, mode) =>
              if mode == Stable then user.principalStableDebt != 0 ==> UserStableDebt(user, t) == restarted
              else UserStableDebt(user, t)
                   == StableDebtBalance(UserStableDebt(u, e.current), u.stableBorrowRate, u.stableRateLastUpdated, t)
            case SwapRateMode(mode) => UserStableDebt(user, t) == if mode == Stable then 0 else restarted
            case RebalanceStableRate =>
              && UserStableDebt(user, t) == restarted
              && user.principalStableDebt == UserStableDebt(u, e.tx)
              && user.stableBorrowRate == after.averageStableBorrowRate
            case _ => UserStableDebt(user, t) == UserStableDebt(u, t)
  {
    hide RayMul, RayDiv, LiquidityIndex, VariableBorrowIndex, RatesFor, UtilizationRate, TotalStableDebt,
      UserStableRate, AverageStableRate, AverageStableRateRebalance, StableBurn, VariableDebtBalance,
      LTokenBalance, NormalizedDebt, CompoundedInterest, ReserveStep, RebalanceWithin, SwapWithin, Sound;
  }

  // ---------- The reserve when a borrow is observed ----------

  /** A borrow records both debts accrued to the observation, at the rates it set. */
  lemma BorrowAccruesTotals(amount: int, mode: RateMode, r: Reserve, tx: int, current: int, p: ReserveParams)
    requires Sound(r, tx) && 0 < tx <= current && 0 <= amount <= r.availableLiquidity
    ensures BorrowDefined(amount, mode, r, tx, current, p)
    ensures var after := AfterBorrow(amount, mode, r, tx, current, p);
            && after.lastUpdateTimestamp == tx
            && after.totalStableDebt == StableDebtUntil(after, current)
            && after.totalVariableDebt
               == RayMul(after.scaledVariableDebt,
                         NormalizedDebt(after.variableBorrowRate, after.variableBorrowIndex,
                                        after.lastUpdateTimestamp, current))
            && after.totalLiquidity == after.availableLiquidity + after.totalStableDebt + after.totalVariableDebt
            && after.utilizationRate
               == UtilizationRate(after.totalStableDebt, after.totalVariableDebt, after.totalLiquidity)
  {
    hide RayMul, RayDiv, LiquidityIndex, VariableBorrowIndex, AverageStableRate, StableDebtBalance,
      UtilizationRate, RatesFor, TotalStableDebt, NormalizedDebt, CompoundedInterest;
    BorrowSound(amount, mode, r, tx, current, p);
  }

  // ---------- What stays ----------

  /** Depositing and withdrawing leave every debt of the reserve, and of the user all but the stable
      principal that a deposit overwrites; everything else leaves the user's deposit alone, and each
      rate mode the other. */
  lemma StepKeepsTheRest(r: Reserve, u: User, e: Event, p: ReserveParams)
    requires Sound(r, e.tx) && 0 < e.tx <= e.current && ActionEnabled(r, u, e)
    ensures var user, after := UserStep(r, u, e, p), ReserveStep(r, u, e, p);
            && after.marketStableRate == r.marketStableRate
            && (e.action.Deposit? || e.action.Withdraw? ==>
                  KeepsVariable(r, u, after, user) && KeepsStable(r, u, after, user))
            && (e.action.Withdraw? ==> user.principalStableDebt == u.principalStableDebt)
            && (!e.action.Deposit? && !e.action.Withdraw? ==> user.scaledLTokenBalance == u.scaledLTokenBalance)
            && ((e.action.Borrow? || e.action.Repay?) && e.action.mode == Stable ==> KeepsVariable(r, u, after, user))
            && ((e.action.Borrow? || e.action.Repay?) && e.action.mode != Stable ==> KeepsStable(r, u, after, user))
            && (e.action.RebalanceStableRate? ==> KeepsVariable(r, u, after, user))
            && (e.action.SetUseAsCollateral? ==>
                  after == r && user == u.(usageAsCollateralEnabled := e.action.enabled))
  {
    hide RayMul, RayDiv, LiquidityIndex, VariableBorrowIndex, RatesFor, UtilizationRate, TotalStableDebt,
      UserStableRate, AverageStableRate, AverageStableRateRebalance, StableBurn, VariableDebtBalance,
      LTokenBalance, NormalizedDebt, StableDebtBalance, RebalanceWithin, SwapWithin;
  }

  ghost predicate KeepsVariable(r: Reserve, u: User, after: Reserve, user: User) {
    after.scaledVariableDebt == r.scaledVariableDebt && user.scaledVariableDebt == u.scaledVariableDebt
  }

  ghost predicate KeepsStable(r: Reserve, u: User, after: Reserve, user: User) {
    && after.principalStableDebt == r.principalStableDebt && after.averageStableBorrowRate == r.averageStableBorrowRate
    && after.totalStableDebtLastUpdated == r.totalStableDebtLastUpdated
    && user.stableBorrowRate == u.stableBorrowRate && user.stableRateLastUpdated == u.stableRateLastUpdated
  }

  /** A first deposit enables the collateral, withdrawing all of a recorded deposit disables it, and
      otherwise only the explicit action changes it. */
  lemma StepSetsCollateral(r: Reserve, u: User, e: Event, p: ReserveParams)
    requires Sound(r, e.tx) && 0 < e.tx <= e.current && ActionEnabled(r, u, e)
    ensures var user := UserStep(r, u, e, p);
            var first := (e.action.Deposit? || e.action.Withdraw?) && u.currentLTokenBalance == 0;
            var last := e.action.Withdraw? && u.currentLTokenBalance != 0 && user.currentLTokenBalance == 0;
            && (first ==> user.usageAsCollateralEnabled)
            && (last ==> !user.usageAsCollateralEnabled)
            && (e.action.SetUseAsCollateral? ==> user.usageAsCollateralEnabled == e.action.enabled)
            && (!first && !last && !e.action.SetUseAsCollateral? ==>
                  user.usageAsCollateralEnabled == u.usageAsCollateralEnabled)
  {
    hide RayMul, RayDiv, LTokenBalance, VariableDebtBalance, StableDebtBalance, NormalizedDebt, UserStableRate,
      ReserveStep;
  }

  // ---------- What is recorded is what it is worth ----------

  /** The time a record shows: that of the observation after a borrow, that of the action otherwise. */
  function ShownAt(e: Event): int {
    if e.action.Borrow? then e.current else e.tx
  }

  /** When the recorded current balances are what the new records are worth then. The stable one is
      overtaken where a deposit overwrites the principal or a variable repayment stores the accrued
      one; the variable one where the reserve counts no variable debt and the index stands still, or
      where a stable repayment shows it as of a later observation. */
  ghost predicate RecordsStableWorth(r: Reserve, u: User, e: Event) {
    match e.action
    case Deposit(_) => VariableDebtBalance(r, u, e.tx) == u.principalStableDebt
    case Repay(_, mode) => mode != Stable ==> UserStableDebt(u, e.current) == u.principalStableDebt
    case _ => true
  }

  ghost predicate RecordsVariableWorth(r: Reserve, u: User, e: Event) {
    (e.action.Deposit? || e.action.Withdraw? || e.action.RebalanceStableRate?
     || (e.action.Repay? && e.action.mode == Stable)) ==>
      VariableDebtBalance(r, u, if e.action.Repay? then e.current else e.tx)
      == if r.totalVariableDebt != 0 then VariableDebtBalance(r, u, e.tx)
         else RayMul(u.scaledVariableDebt, r.variableBorrowIndex)
  }

  lemma StepRecordsWorth(r: Reserve, u: User, e: Event, p: ReserveParams)
    requires Sound(r, e.tx) && 0 < e.tx <= e.current && ActionEnabled(r, u, e) && UserSound(u, e.tx)
    requires !e.action.SetUseAsCollateral?
    ensures var user, after := UserStep(r, u, e, p), ReserveStep(r, u, e, p);
            && user.liquidityRate == after.liquidityRate
            && user.currentLTokenBalance
               == (if e.action.Deposit? || e.action.Withdraw? then LTokenBalance(after, u, e.tx) - CashOut(r, u, e)
                   else LTokenBalance(after, user, ShownAt(e)))
            && (user.currentStableDebt == UserStableDebt(user, ShownAt(e)) <==> RecordsStableWorth(r, u, e))
            && (user.currentVariableDebt == VariableDebtBalance(after, user, ShownAt(e))
                <==> RecordsVariableWorth(r, u, e))
  {
    hide RayMul, ReserveStep, UserStep, StableDebtBalance, NormalizedDebt, NormalizedIncome;
    ValuesKept(r, u, e, u, p);
    ValuesKept(r, u, e, UserStep(r, u, e, p), p);
    StepRecordsDeposit(r, u, e, p);
    StepRecordsStable(r, u, e, p);
    StepRecordsVariable(r, u, e, p);
    if !e.action.Borrow? {
      IndexesStored(r, u, e, p);
      IndexNow(ReserveStep(r, u, e, p), e.tx);
    }
  }

  lemma IndexNow(r: Reserve, timestamp: int)
    requires r.variableBorrowIndex >= 0
    ensures NormalizedDebt(r.variableBorrowRate, r.variableBorrowIndex, timestamp, timestamp) == r.variableBorrowIndex
  {
    RayMulUnit(r.variableBorrowIndex);
  }

  lemma StepRecordsDeposit(r: Reserve, u: User, e: Event, p: ReserveParams)
    requires Sound(r, e.tx) && 0 < e.tx <= e.current && ActionEnabled(r, u, e) && !e.action.SetUseAsCollateral?
    ensures var user, after := UserStep(r, u, e, p), ReserveStep(r, u, e, p);
            && user.liquidityRate == after.liquidityRate
            && user.currentLTokenBalance
               == if e.action.Borrow? then LTokenBalance(after, user, e.current)
                  else if e.action.Deposit? || e.action.Withdraw? then LTokenBalance(r, u, e.tx) - CashOut(r, u, e)
                  else LTokenBalance(r, user, e.tx)
  {
    hide RayMul, RayDiv, NormalizedIncome, VariableDebtBalance, StableDebtBalance, NormalizedDebt,
      UserStableRate, ReserveStep;
  }

  lemma StepRecordsStable(r: Reserve, u: User, e: Event, p: ReserveParams)
    requires Sound(r, e.tx) && 0 < e.tx <= e.current && ActionEnabled(r, u, e) && UserSound(u, e.tx)
    requires !e.action.SetUseAsCollateral?
    ensures UserStep(r, u, e, p).currentStableDebt == UserStableDebt(UserStep(r, u, e, p), ShownAt(e))
            <==> RecordsStableWorth(r, u, e)
  {
    hide RayMul, RayDiv, LTokenBalance, VariableDebtBalance, NormalizedDebt, UserStableRate, ReserveStep,
      CompoundedInterest, TotalStableDebt;
    var principal, rate, last := u.principalStableDebt, u.stableBorrowRate, u.stableRateLastUpdated;
    VariableDebtMono(r, u, e.tx, e.tx);
    StableDebtGrows(principal, rate, last, e.tx);
    CompoundedAtLeastOne(rate, e.tx, last);
    CompoundedMono(rate, e.tx, e.current, last);
    RayMulMono(CompoundedInterest(rate, e.tx, last), CompoundedInterest(rate, e.current, last), principal);
    StableDebtGrows(UserStableDebt(u, e.current), rate, last, e.tx);
    StableBalanceInjective(VariableDebtBalance(r, u, e.tx), principal, rate, last, e.tx);
  }

  /** The variable debt that is recorded: a stable repayment shows it as it was before, valued when
      observed; deposits, withdrawals and rebalances at their own time. */
  lemma StepRecordsVariable(r: Reserve, u: User, e: Event, p: ReserveParams)
    requires Sound(r, e.tx) && 0 < e.tx <= e.current && ActionEnabled(r, u, e) && !e.action.SetUseAsCollateral?
    ensures var user, after := UserStep(r, u, e, p), ReserveStep(r, u, e, p);
            if e.action.Borrow? then user.currentVariableDebt == VariableDebtBalance(after, user, e.current)
            else if e.action.SwapRateMode? || (e.action.Repay? && e.action.mode != Stable) then
              user.currentVariableDebt == RayMul(user.scaledVariableDebt, after.variableBorrowIndex)
            else
              && user.currentVariableDebt == VariableDebtBalance(r, u, if e.action.Repay? then e.current else e.tx)
              && user.scaledVariableDebt == u.scaledVariableDebt
  {
    hide RayDiv, LTokenBalance, NormalizedDebt, StableDebtBalance, UserStableRate, ReserveStep;
    RayMulZero(ReserveStep(r, u, e, p).variableBorrowIndex);
    hide RayMul;
  }
}
