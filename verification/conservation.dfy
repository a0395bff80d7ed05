/** Conservation: what an action does to the accrued claims on a reserve, to the scaled balances
    when a user moves everything, and to the balances of everyone else
    (test-suites/test-palmy/helpers/utils/calculations.ts). */
module Conservation {
  import opened FixedPoint
  import opened Interest
  import opened Rates
  import opened Records
  import opened Balances
  import opened ReserveSteps
  import opened UserSteps
  import opened Soundness
  import opened Runs

  // ---------- Scaled arithmetic ----------

  lemma AddScaledRounds(s: int, d: int, index: int)
    ensures (s + d) * index == s * index + d * index
  {
  }

  /** Adding an amount to a scaled balance moves the balance by that amount within one unit and
      half an index unit: at a scale of two rays, 2 * RAY + index. */
  lemma ScaledAdd(s: int, amount: int, index: int)
    requires s >= 0 && amount >= 0 && index > 0
    ensures RayDiv(amount, index) >= 0
    ensures Near(2 * RAY * (RayMul(s + RayDiv(amount, index), index) - RayMul(s, index)), 2 * RAY * amount,
                 2 * RAY + index)
  {
    RayDivRounds(amount, index);
    hide RayDiv, RayMul;
    var d := RayDiv(amount, index);
    RayMulRounds(s, index);
    RayMulRounds(s + d, index);
    AddScaledRounds(s, d, index);
    MoveArithmetic(s * index, d * index, RayMul(s, index), RayMul(s + d, index), amount, index);
  }

  lemma MoveArithmetic(si: int, di: int, before: int, after: int, amount: int, index: int)
    requires IsRounded(si, RAY, before) && IsRounded(si + di, RAY, after)
    requires 2 * (amount * RAY) - index < 2 * di <= 2 * (amount * RAY) + index
    ensures Near(2 * RAY * (after - before), 2 * RAY * amount, 2 * RAY + index)
  {
  }

  /** Removing an amount that unscales to at most the balance: the same bound. */
  lemma ScaledSub(s: int, amount: int, index: int)
    requires amount >= 0 && index > 0 && s >= RayDiv(amount, index)
    ensures Near(2 * RAY * (RayMul(s, index) - RayMul(s - RayDiv(amount, index), index)), 2 * RAY * amount,
                 2 * RAY + index)
  {
    RayDivRounds(amount, index);
    hide RayDiv, RayMul, IsRounded;
    ScaledAdd(s - RayDiv(amount, index), amount, index);
  }

  /** Two parts of a scaled balance are worth the whole within one unit. */
  lemma ScaledParts(s1: int, s2: int, index: int)
    requires s1 >= 0 && s2 >= 0 && index >= 0
    ensures Near(RayMul(s1, index) + RayMul(s2, index), RayMul(s1 + s2, index), 1)
  {
    RayMulRounds(s1, index);
    RayMulRounds(s2, index);
    RayMulRounds(s1 + s2, index);
    AddScaledRounds(s1, s2, index);
    hide RayMul;
    PartsArithmetic(s1 * index, s2 * index, RayMul(s1, index), RayMul(s2, index), RayMul(s1 + s2, index));
  }

  lemma PartsArithmetic(a: int, b: int, ra: int, rb: int, whole: int)
    requires IsRounded(a, RAY, ra) && IsRounded(b, RAY, rb) && IsRounded(a + b, RAY, whole)
    ensures Near(ra + rb, whole, 1)
  {
  }

  // ---------- Accrued claims ----------

  /** Everything the reserve holds or is owed, with interest up to `timestamp`. */
  function AccruedLiquidity(r: Reserve, timestamp: int): int {
    r.availableLiquidity + StableDebtUntil(r, timestamp)
        + RayMul(r.scaledVariableDebt, VariableBorrowIndex(r, timestamp))
  }

  /** A principal just restarted is the whole stable debt. */
  lemma StableDebtNow(r: Reserve, timestamp: int)
    requires r.totalStableDebtLastUpdated == timestamp && r.principalStableDebt >= 0
    ensures StableDebtUntil(r, timestamp) == r.principalStableDebt
  {
    RayMulUnit(r.principalStableDebt);
  }

  /** Right after an action nothing more has accrued. */
  lemma ClaimsNow(r: Reserve, tx: int)
    requires r.lastUpdateTimestamp == tx && r.variableBorrowIndex >= 0
    ensures VariableBorrowIndex(r, tx) == r.variableBorrowIndex
    ensures AccruedLiquidity(r, tx)
         == r.availableLiquidity + StableDebtUntil(r, tx) + RayMul(r.scaledVariableDebt, r.variableBorrowIndex)
    ensures r.totalStableDebtLastUpdated == tx && r.principalStableDebt >= 0 ==>
              StableDebtUntil(r, tx) == r.principalStableDebt
  {
    hide RayMul;
    assert CompoundedInterest(r.variableBorrowRate, tx, tx) == RAY;
    RayMulUnit(r.variableBorrowIndex);
    if r.totalStableDebtLastUpdated == tx && r.principalStableDebt >= 0 {
      StableDebtNow(r, tx);
    }
  }

  /** Cash brought in from outside by an event. Borrowing and repaying exchange cash for debt. */
  function Inflow(r: Reserve, u: User, e: Event): int {
    if e.action.Deposit? || e.action.Withdraw? then -CashOut(r, u, e) else 0
  }

  /** What the clamp of a stable repayment adds to (or, below zero, takes from) the claims: it erases
      the whole debt instead of the amount paid. */
  function Erased(r: Reserve, u: User, e: Event): int {
    if e.action.Repay? && e.action.mode == Stable then
      var paid, debt := -CashOut(r, u, e), StableDebtUntil(r, e.tx);
      if StableSurvives(r.averageStableBorrowRate, debt, paid, u.stableBorrowRate) then 0 else paid - debt
    else 0
  }

  /** Rounding of the actions that move scaled variable debt, at a scale of two rays. */
  function MoveDust(r: Reserve, e: Event): int {
    match e.action
    case Borrow(_, mode) => if mode == Stable then 0 else 2 * RAY + VariableBorrowIndex(r, e.tx)
    case Repay(_, mode) => if mode == Stable then 0 else 2 * RAY + VariableBorrowIndex(r, e.tx)
    case SwapRateMode(_) => 2 * RAY + VariableBorrowIndex(r, e.tx)
    case _ => 0
  }

  /** The claims on the reserve change by the cash flowing in and nothing else: exactly for
      deposits, withdrawals, stable borrowing and rebalancing; up to the clamp for a stable
      repayment; and within rounding where scaled variable debt moves. */
  lemma StepKeepsClaims(r: Reserve, u: User, e: Event, p: ReserveParams)
    requires Sound(r, e.tx) && 0 < e.tx <= e.current && ActionEnabled(r, u, e)
    requires !e.action.SetUseAsCollateral?
    ensures Near(2 * RAY * (AccruedLiquidity(ReserveStep(r, u, e, p), e.tx) - AccruedLiquidity(r, e.tx)),
                 2 * RAY * (Inflow(r, u, e) + Erased(r, u, e)), MoveDust(r, e))
  {
    hide RayMul, RayDiv, LiquidityIndex, TotalStableDebt, StableDebtBalance, RatesFor, UtilizationRate,
      AverageStableRate, AverageStableRateRebalance, StableBurn, VariableDebtBalance, LTokenBalance, NormalizedDebt,
      CompoundedInterest;
    StepIndexes(r, e.tx);
    StableDebtGrows(r.principalStableDebt, r.averageStableBorrowRate, r.totalStableDebtLastUpdated, e.tx);
    if e.action.Borrow? {
      BorrowKeepsClaims(r, u, e, p);
    } else if e.action.Repay? {
      RepayKeepsClaims(r, u, e, p);
    } else if e.action.SwapRateMode? {
      SwapKeepsClaims(r, u, e, p);
    } else {
      ClaimsNow(ReserveStep(r, u, e, p), e.tx);
    }
  }

  lemma BorrowKeepsClaims(r: Reserve, u: User, e: Event, p: ReserveParams)
    requires Sound(r, e.tx) && 0 < e.tx <= e.current && ActionEnabled(r, u, e) && e.action.Borrow?
    ensures Near(2 * RAY * (AccruedLiquidity(ReserveStep(r, u, e, p), e.tx) - AccruedLiquidity(r, e.tx)), 0,
                 MoveDust(r, e))
  {
    hide RayMul, RayDiv, LiquidityIndex, TotalStableDebt, StableDebtBalance, RatesFor, UtilizationRate,
      AverageStableRate, NormalizedDebt, CompoundedInterest;
    StepIndexes(r, e.tx);
    StableDebtGrows(r.principalStableDebt, r.averageStableBorrowRate, r.totalStableDebtLastUpdated, e.tx);
    ClaimsNow(ReserveStep(r, u, e, p), e.tx);
    hide VariableBorrowIndex;
    if e.action.mode != Stable {
      ScaledAdd(r.scaledVariableDebt, e.action.amount, VariableBorrowIndex(r, e.tx));
    }
  }

  lemma RepayKeepsClaims(r: Reserve, u: User, e: Event, p: ReserveParams)
    requires Sound(r, e.tx) && 0 < e.tx <= e.current && ActionEnabled(r, u, e) && e.action.Repay?
    ensures Near(2 * RAY * (AccruedLiquidity(ReserveStep(r, u, e, p), e.tx) - AccruedLiquidity(r, e.tx)),
                 2 * RAY * Erased(r, u, e), MoveDust(r, e))
  {
    hide RayMul, RayDiv, LiquidityIndex, TotalStableDebt, StableDebtBalance, RatesFor, UtilizationRate,
      AverageStableRate, StableBurn, StableSurvives, VariableDebtBalance, CompoundedInterest;
    StepIndexes(r, e.tx);
    ClaimsNow(ReserveStep(r, u, e, p), e.tx);
    hide VariableBorrowIndex;
    var paid, index := -CashOut(r, u, e), VariableBorrowIndex(r, e.tx);
    if e.action.mode == Stable {
      BurnSurvivesIff(r.averageStableBorrowRate, StableDebtUntil(r, e.tx), paid, u.stableBorrowRate);
    } else {
      ScaledSub(r.scaledVariableDebt, paid, index);
    }
  }

  lemma SwapKeepsClaims(r: Reserve, u: User, e: Event, p: ReserveParams)
    requires Sound(r, e.tx) && 0 < e.tx <= e.current && ActionEnabled(r, u, e) && e.action.SwapRateMode?
    ensures Near(2 * RAY * (AccruedLiquidity(ReserveStep(r, u, e, p), e.tx) - AccruedLiquidity(r, e.tx)), 0,
                 MoveDust(r, e))
  {
    hide RayMul, RayDiv, LiquidityIndex, TotalStableDebt, StableDebtBalance, RatesFor, UtilizationRate,
      AverageStableRate, VariableDebtBalance, CompoundedInterest;
    StepIndexes(r, e.tx);
    StableDebtGrows(r.principalStableDebt, r.averageStableBorrowRate, r.totalStableDebtLastUpdated, e.tx);
    ClaimsNow(ReserveStep(r, u, e, p), e.tx);
    hide VariableBorrowIndex;
    var index := VariableBorrowIndex(r, e.tx);
    if e.action.mode == Stable {
      ScaledAdd(r.scaledVariableDebt, UserStableDebt(u, e.tx), index);
    } else {
      ScaledSub(r.scaledVariableDebt, VariableDebtBalance(r, u, e.tx), index);
    }
  }

  // ---------- Moving everything ----------

  /** The valued variable debt and its unscaling, also where the two early-outs disagree: an
      empty reserve has no scaled debt. */
  lemma ValuedDebtUnscales(r: Reserve, u: User, tx: int)
    requires Sound(r, tx) && 0 <= u.scaledVariableDebt <= r.scaledVariableDebt
    ensures VariableBorrowIndex(r, tx) >= RAY
    ensures VariableDebtBalance(r, u, tx) == RayMul(u.scaledVariableDebt, VariableBorrowIndex(r, tx))
    ensures RayDiv(VariableDebtBalance(r, u, tx), VariableBorrowIndex(r, tx)) == u.scaledVariableDebt
    ensures 0 <= VariableDebtBalance(r, u, tx) <= RayMul(r.scaledVariableDebt, VariableBorrowIndex(r, tx))
  {
    hide RayMul, RayDiv;
    VariableBorrowIndexGrows(r, tx);
    var index := VariableBorrowIndex(r, tx);
    if r.totalVariableDebt != 0 || r.variableBorrowRate == 0 {
      DebtIndexesAgree(r, tx);
    } else {
      RayMulZero(index);
      RayMulZero(NormalizedDebt(r.variableBorrowRate, r.variableBorrowIndex, r.lastUpdateTimestamp, tx));
    }
    RoundTrip(u.scaledVariableDebt, index);
    RayMulMono(u.scaledVariableDebt, r.scaledVariableDebt, index);
  }

  /** Withdrawing the maximum empties the user's scaled balance exactly. */
  lemma MaxWithdrawEmpties(r: Reserve, u: User, tx: int, p: ReserveParams)
    requires Sound(r, tx) && u.scaledLTokenBalance >= 0
    requires Priceable(WithdrawMoved(LTokenBalance(r, u, tx), r, tx))
    ensures 0 <= LTokenBalance(r, u, tx)
    ensures var after := AfterWithdraw(MAX_UINT_AMOUNT, r, u, tx, p);
            && after.liquidityIndex >= RAY
            && UserAfterWithdraw(MAX_UINT_AMOUNT, r, after, u, tx).scaledLTokenBalance == 0
            && UserAfterWithdraw(MAX_UINT_AMOUNT, r, after, u, tx).currentLTokenBalance == 0
            && after.availableLiquidity == r.availableLiquidity - LTokenBalance(r, u, tx)
  {
    hide RayMul, RayDiv, LiquidityIndex, LTokenBalance, VariableBorrowIndex, TotalStableDebt, RatesFor, UtilizationRate;
    BalanceIsScaled(r, u, tx);
    var index := LiquidityIndex(r, tx);
    RoundTrip(u.scaledLTokenBalance, index);
    RayDivZero(index);
    RayMulGrows(u.scaledLTokenBalance, index);
  }

  /** A debt still unscales to `scaled` as long as it has not grown by half an index unit. */
  predicate StillUnscales(debt: int, scaled: int, index: int) {
    2 * RAY * debt < (2 * scaled + 1) * index
  }

  lemma UnscalesIff(scaled: int, earlier: int, debt: int, index: int)
    requires scaled >= 0 && index > 0 && 0 <= earlier <= debt && RayDiv(earlier, index) == scaled
    ensures RayDiv(debt, index) >= scaled
    ensures RayDiv(debt, index) == scaled <==> StillUnscales(debt, scaled, index)
  {
    RayDivRounds(earlier, index);
    RayDivMono(earlier, debt, index);
    RayDivRounds(debt, index);
    hide RayDiv;
    assert (2 * scaled + 1) * index == 2 * (scaled * index) + index;
    if StillUnscales(debt, scaled, index) {
      RayDivUnique(debt, index, scaled);
    }
  }

  /** Repaying the maximum of variable debt, of either sign, lowers the reserve's scaled debt by
      exactly the user's. The payer's side values the debt when it is observed: it clears the user's
      scaled debt exactly while the debt has grown by less than half an index unit since the
      inclusion, in particular without delay, and leaves it negative otherwise. */
  lemma MaxRepayClears(amount: int, r: Reserve, u: User, tx: int, current: int, p: ReserveParams)
    requires Sound(r, tx) && 0 < tx <= current && 0 <= u.scaledVariableDebt <= r.scaledVariableDebt
    requires Abs(amount) == MAX_UINT_AMOUNT
    ensures RepayDefined(amount, Variable, r, u, tx)
    ensures var after := AfterRepay(amount, Variable, r, u, tx, p);
            && after.scaledVariableDebt == r.scaledVariableDebt - u.scaledVariableDebt
            && after.availableLiquidity == r.availableLiquidity + VariableDebtBalance(r, u, tx)
            && after.variableBorrowIndex >= RAY
            && after.totalVariableDebt == RayMul(after.scaledVariableDebt, after.variableBorrowIndex)
            && var user := UserAfterRepay(amount, Variable, r, after, u, "user", "user", tx, current);
               && user.scaledVariableDebt <= 0
               && (user.scaledVariableDebt == 0
                   <==> StillUnscales(VariableDebtBalance(r, u, current), u.scaledVariableDebt,
                                      after.variableBorrowIndex))
               && (current == tx ==> user.scaledVariableDebt == 0 && user.currentVariableDebt == 0)
  {
    hide RayMul, RayDiv, LiquidityIndex, VariableBorrowIndex, TotalStableDebt, RatesFor, UtilizationRate,
      VariableDebtBalance, Solvent,
      StillUnscales, StableDebtBalance;
    ValuedDebtUnscales(r, u, tx);
    VariableDebtMono(r, u, tx, current);
    UnscalesIff(u.scaledVariableDebt, VariableDebtBalance(r, u, tx), VariableDebtBalance(r, u, current),
                VariableBorrowIndex(r, tx));
    var paid := VariableDebtBalance(r, u, tx);
    RepayBalancedIff(paid, Variable, r, u, tx);
    RepricedSound(RepayMoved(paid, Variable, r, u, tx), tx, p);
    RayMulZero(VariableBorrowIndex(r, tx));
  }

  // ---------- Swapping the rate mode ----------

  /** Accrued debt of both kinds. */
  function AccruedDebt(r: Reserve, timestamp: int): int {
    StableDebtUntil(r, timestamp) + RayMul(r.scaledVariableDebt, VariableBorrowIndex(r, timestamp))
  }

  /** Swapping variable debt to stable keeps the total accrued debt within one unit, lowers the
      reserve's scaled debt by exactly the user's, and clears the user's variable debt. */
  lemma SwapToStable(r: Reserve, u: User, tx: int, p: ReserveParams)
    requires Sound(r, tx) && 0 < tx && 0 <= u.scaledVariableDebt <= r.scaledVariableDebt
    ensures SwapDefined(r, u, Variable, tx)
    ensures var after := AfterSwapRateMode(r, u, Variable, tx, p);
            && after.scaledVariableDebt == r.scaledVariableDebt - u.scaledVariableDebt
            && after.principalStableDebt == StableDebtUntil(r, tx) + VariableDebtBalance(r, u, tx)
            && Near(AccruedDebt(after, tx), AccruedDebt(r, tx), 1)
            && after.availableLiquidity == r.availableLiquidity
  {
    hide RayMul, RayDiv, LiquidityIndex, TotalStableDebt, RatesFor, UtilizationRate, VariableDebtBalance,
      AverageStableRate,
      StableDebtBalance, Solvent;
    ValuedDebtUnscales(r, u, tx);
    StableDebtGrows(r.principalStableDebt, r.averageStableBorrowRate, r.totalStableDebtLastUpdated, tx);
    SwapBalancedIff(r, u, Variable, tx);
    RepricedSound(SwapMoved(r, u, Variable, tx), tx, p);
    ClaimsNow(AfterSwapRateMode(r, u, Variable, tx, p), tx);
    hide VariableBorrowIndex;
    ScaledParts(u.scaledVariableDebt, r.scaledVariableDebt - u.scaledVariableDebt, VariableBorrowIndex(r, tx));
  }

  /** A swap within the reserve's stable debt can be priced, whatever the rates. */
  lemma SwapPriceable(r: Reserve, u: User, tx: int)
    requires Sound(r, tx) && 0 <= UserStableDebt(u, tx) <= StableDebtUntil(r, tx)
    ensures VariableBorrowIndex(r, tx) >= RAY
    ensures SwapDefined(r, u, Stable, tx)
  {
    hide RayMul, RayDiv, LiquidityIndex, VariableBorrowIndex, TotalStableDebt, StableDebtBalance, AverageStableRate,
      IsRounded;
    TotalsCover(r, r.principalStableDebt, r.averageStableBorrowRate, r.scaledVariableDebt, tx);
    RayDivRounds(UserStableDebt(u, tx), VariableBorrowIndex(r, tx));
    TotalsCover(r, 0, 0, r.scaledVariableDebt + RayDiv(UserStableDebt(u, tx), VariableBorrowIndex(r, tx)), tx);
  }

  /** Swapping stable debt to variable keeps the total accrued debt within one unit and half an
      index unit, and moves the user's and the reserve's scaled debt alike, whatever the rates. */
  lemma SwapToVariable(r: Reserve, u: User, tx: int, p: ReserveParams)
    requires Sound(r, tx) && 0 <= UserStableDebt(u, tx) <= StableDebtUntil(r, tx)
    ensures SwapDefined(r, u, Stable, tx)
    ensures var after := AfterSwapRateMode(r, u, Stable, tx, p);
            && after.variableBorrowIndex == VariableBorrowIndex(r, tx) >= RAY
            && Near(2 * RAY * AccruedDebt(after, tx), 2 * RAY * AccruedDebt(r, tx), 2 * RAY + after.variableBorrowIndex)
            && after.scaledVariableDebt - r.scaledVariableDebt
               == UserAfterSwapRateMode(r, after, u, Stable, tx).scaledVariableDebt - u.scaledVariableDebt
            && UserAfterSwapRateMode(r, after, u, Stable, tx).principalStableDebt == 0
            && after.principalStableDebt == StableDebtUntil(r, tx) - UserStableDebt(u, tx)
  {
    hide RayMul, RayDiv, LiquidityIndex, TotalStableDebt, RatesFor, UtilizationRate, VariableDebtBalance,
      AverageStableRate,
      StableDebtBalance;
    SwapPriceable(r, u, tx);
    ClaimsNow(AfterSwapRateMode(r, u, Stable, tx, p), tx);
    ScaledAdd(r.scaledVariableDebt, UserStableDebt(u, tx), VariableBorrowIndex(r, tx));
  }

  // ---------- The user's own stable debt ----------

  /** The user's own debt survives a swap to stable exactly when the recorded stable debt was
      accrued up to the swap: the prediction adds to the recorded one. */
  lemma UserSwapKeepsDebtIff(r: Reserve, after: Reserve, u: User, tx: int)
    requires UserSwapDefined(r, after, u, Variable, tx)
    ensures var user := UserAfterSwapRateMode(r, after, u, Variable, tx);
            && user.scaledVariableDebt == 0
            && (UserStableDebt(user, tx) == UserStableDebt(u, tx) + VariableDebtBalance(r, u, tx)
                <==> u.currentStableDebt == UserStableDebt(u, tx))
  {
    hide RayMul, CompoundedInterest, VariableDebtBalance, LTokenBalance, UserStableRate;
  }

  /** The variable debt overwrites the stable principal in a deposit, so the stable debt survives
      exactly when the two are equal. */
  lemma DepositKeepsDebtIff(amount: int, r: Reserve, after: Reserve, u: User, tx: int)
    requires after.liquidityIndex != 0 && UserSound(u, tx)
    requires r.variableBorrowIndex >= 0 && r.variableBorrowRate >= 0 && r.lastUpdateTimestamp <= tx
    ensures UserStableDebt(UserAfterDeposit(amount, r, after, u, tx), tx) == UserStableDebt(u, tx)
       <==> VariableDebtBalance(r, u, tx) == u.principalStableDebt
  {
    hide VariableDebtBalance, LTokenBalance, ScaledLTokenBalance, StableDebtBalance;
    VariableDebtMono(r, u, tx, tx);
    StableBalanceInjective(VariableDebtBalance(r, u, tx), u.principalStableDebt, u.stableBorrowRate,
                           u.stableRateLastUpdated, tx);
  }

  /** A variable repayment stores the accrued stable debt as principal but keeps its old timestamp, so
      the interest counts twice: the stable debt survives exactly when there was none. */
  lemma RepayKeepsStableDebtIff(amount: int, mode: RateMode, r: Reserve, after: Reserve, u: User, tx: int, current: int)
    requires mode != Stable && after.variableBorrowIndex != 0
    requires u.principalStableDebt >= 0 && u.stableBorrowRate >= 0 && u.stableRateLastUpdated <= current
    ensures UserStableDebt(UserAfterRepay(amount, mode, r, after, u, "user", "user", tx, current), current)
         == UserStableDebt(u, current)
       <==> UserStableDebt(u, current) == u.principalStableDebt
  {
    hide RayMul, RayDiv, VariableDebtBalance, LTokenBalance, StableDebtBalance;
    StableDebtGrows(u.principalStableDebt, u.stableBorrowRate, u.stableRateLastUpdated, current);
    StableBalanceInjective(UserStableDebt(u, current), u.principalStableDebt, u.stableBorrowRate,
                           u.stableRateLastUpdated, current);
  }

  // ---------- Bystanders ----------

  lemma BalanceIsScaled(r: Reserve, u: User, tx: int)
    requires Sound(r, tx)
    ensures LTokenBalance(r, u, tx) == RayMul(u.scaledLTokenBalance, LiquidityIndex(r, tx))
    ensures LiquidityIndex(r, tx) >= RAY
  {
    LiquidityIndexGrows(r, tx);
    assert r.liquidityRate * (tx - r.lastUpdateTimestamp) < ONE_YEAR || r.utilizationRate != 0 by {
      if r.utilizationRate == 0 { assert 0 * (tx - r.lastUpdateTimestamp) == 0; }
    }
    IncomeIndexesAgree(r, tx);
  }

  /** An action changes no deposit and no stable debt of another user, worth the same right before and
      right after it. It changes no variable debt either, except one that has grown while the reserve
      counts no variable debt at all and so accrues no debt index. */
  lemma OthersUnaffected(s: System, e: Event, k: nat, p: ReserveParams)
    requires Sound(s.reserve, s.clock) && Enabled(s, e)
    requires k < |s.users| && k != e.actor
    ensures var r, other, after := s.reserve, s.users[k], Step(s, e, p);
            && LTokenBalance(after.reserve, after.users[k], e.tx) == LTokenBalance(r, other, e.tx)
            && UserStableDebt(after.users[k], e.tx) == UserStableDebt(other, e.tx)
            && (VariableDebtBalance(after.reserve, after.users[k], e.tx) == VariableDebtBalance(r, other, e.tx)
                <==> || e.action.SetUseAsCollateral? || r.totalVariableDebt != 0
                     || VariableDebtBalance(r, other, e.tx) == RayMul(other.scaledVariableDebt, r.variableBorrowIndex))
  {
    hide RayMul, ReserveStep, UserStep, LTokenBalance, VariableDebtBalance, StableDebtBalance;
    SoundLater(s.reserve, s.clock, e.tx);
    ValuesKept(s.reserve, s.users[e.actor], e, s.users[k], p);
    hide Sound;
  }

  /** How the indexes that value balances move by an action. */
  lemma ValuesKept(r: Reserve, u: User, e: Event, other: User, p: ReserveParams)
    requires Sound(r, e.tx) && 0 < e.tx <= e.current && ActionEnabled(r, u, e)
    ensures LTokenBalance(ReserveStep(r, u, e, p), other, e.tx) == LTokenBalance(r, other, e.tx)
    ensures VariableDebtBalance(ReserveStep(r, u, e, p), other, e.tx) == VariableDebtBalance(r, other, e.tx)
       <==> || e.action.SetUseAsCollateral? || r.totalVariableDebt != 0
            || VariableDebtBalance(r, other, e.tx) == RayMul(other.scaledVariableDebt, r.variableBorrowIndex)
  {
    if e.action.SetUseAsCollateral? {
      NothingPriced(r, u, e, p);
    } else {
      BalanceIsScaled(r, other, e.tx);
      var after := ReserveStep(r, u, e, p);
      IndexesStored(r, u, e, p);
      NothingAccrues(after, 0, 0, e.tx);
      hide RayMul, ReserveStep, NormalizedDebt, NormalizedIncome, LiquidityIndex;
      if r.totalVariableDebt != 0 {
        DebtIndexesAgree(r, e.tx);
      }
    }
  }

  /** Every action stores the accrued indexes and its time. */
  lemma IndexesStored(r: Reserve, u: User, e: Event, p: ReserveParams)
    requires Sound(r, e.tx) && 0 < e.tx <= e.current && ActionEnabled(r, u, e)
    requires !e.action.SetUseAsCollateral?
    ensures var after := ReserveStep(r, u, e, p);
            && after.liquidityIndex == LiquidityIndex(r, e.tx)
            && after.variableBorrowIndex == VariableBorrowIndex(r, e.tx)
            && after.lastUpdateTimestamp == e.tx
  {
    hide RayMul, RayDiv, LiquidityIndex, TotalStableDebt, StableDebtBalance, RatesFor, UtilizationRate,
      AverageStableRate, AverageStableRateRebalance, StableBurn, VariableDebtBalance, LTokenBalance, NormalizedDebt,
      CompoundedInterest;
    StepIndexes(r, e.tx);
    hide VariableBorrowIndex;
  }
}
