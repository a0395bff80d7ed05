/** Which way an action moves the rates when no time has passed
    (test-suites/test-palmy/helpers/utils/calculations.ts). */
module RateMoves {
  import opened FixedPoint
  import opened Interest
  import opened Rates
  import opened Records
  import opened Balances
  import opened ReserveSteps
  import opened Soundness
  import opened Runs
  import opened Conservation

  /** Recorded totals that are those of the debts at `timestamp`. */
  ghost predicate TotalsMatch(r: Reserve, timestamp: int) {
    && r.lastUpdateTimestamp == timestamp
    && r.totalStableDebt == StableDebtUntil(r, timestamp)
    && r.totalVariableDebt == RayMul(r.scaledVariableDebt, r.variableBorrowIndex)
    && r.totalLiquidity == r.availableLiquidity + r.totalStableDebt + r.totalVariableDebt
  }

  /** A reserve whose recorded totals and rates are up to date at `timestamp`. */
  ghost predicate ConsistentAt(r: Reserve, timestamp: int, p: ReserveParams) {
    && Sound(r, timestamp)
    && TotalsMatch(r, timestamp)
    && r == Repriced(r, p)
  }

  /** What an action needs for the result to be consistent: a deposit adds to the recorded liquidity,
      and a variable repayment reuses the recorded stable debt, so those must be up to date; a borrow
      records its debts when it is observed, so they must not have grown by then; every other action
      rebuilds all totals. */
  ghost predicate TotalsFreshFor(r: Reserve, u: User, e: Event, p: ReserveParams)
    requires Sound(r, e.tx) && 0 < e.tx && ActionEnabled(r, u, e) && !e.action.SetUseAsCollateral?
  {
    match e.action
    case Deposit(_) => r.totalLiquidity == AccruedLiquidity(r, e.tx)
    case Repay(_, mode) => mode != Stable ==> r.totalStableDebt == StableDebtUntil(r, e.tx)
    case Borrow(_, _) =>
      var priced := PricedBy(r, u, e, p);
      var later := TotalsAt(priced, e.tx, e.current);
      later.totalStableDebt == priced.totalStableDebt && later.totalVariableDebt == priced.totalVariableDebt
    case _ => true
  }

  /** The prices after an action match its totals exactly under that condition. */
  lemma StepConsistentIff(r: Reserve, u: User, e: Event, p: ReserveParams)
    requires Sound(r, e.tx) && 0 < e.tx <= e.current && ActionEnabled(r, u, e) && !e.action.SetUseAsCollateral?
    ensures ConsistentAt(ReserveStep(r, u, e, p), e.tx, p) <==> TotalsFreshFor(r, u, e, p)
  {
    hide RayMul, RayDiv, LiquidityIndex, VariableBorrowIndex, TotalStableDebt, StableDebtBalance, CompoundedInterest,
      AverageStableRate, AverageStableRateRebalance, StableBurn, VariableDebtBalance, LTokenBalance, NormalizedDebt,
      SwapWithin, RebalanceWithin, ReserveStep, Repriced, ConsistentAt, OnlyGrown, Solvent;
    var moved := Moved(r, u, e);
    StepPrices(r, u, e, p);
    PricedConsistentIff(moved, e.tx, p);
    MovedTotals(r, u, e);
    if e.action.Borrow? {
      BorrowRecords(r, u, e, p);
      GrownConsistentIff(ReserveStep(r, u, e, p), PricedBy(r, u, e, p), e.tx, p);
    }
  }

  /** Which totals an action moves. */
  lemma MovedTotals(r: Reserve, u: User, e: Event)
    requires Sound(r, e.tx) && 0 < e.tx && ActionEnabled(r, u, e) && !e.action.SetUseAsCollateral?
    ensures TotalsMatch(Moved(r, u, e), e.tx)
       <==> match e.action
            case Deposit(_) => r.totalLiquidity == AccruedLiquidity(r, e.tx)
            case Repay(_, mode) => mode != Stable ==> r.totalStableDebt == StableDebtUntil(r, e.tx)
            case _ => true
  {
    hide RayMul, RayDiv, LiquidityIndex, TotalStableDebt, StableDebtBalance, CompoundedInterest, AverageStableRate,
      AverageStableRateRebalance, StableBurn, VariableDebtBalance, LTokenBalance, NormalizedDebt,
      SwapWithin, RebalanceWithin;
    var moved := Moved(r, u, e);
    IndexAtLeastRay(r, e.tx);
    if moved.totalStableDebtLastUpdated == e.tx && moved.principalStableDebt >= 0 {
      StableDebtNow(moved, e.tx);
    }
    if e.action.Borrow? {
      StableBalancesAgree(r, e.tx);
    }
  }

  /** What a borrow records when it is observed. */
  lemma BorrowRecords(r: Reserve, u: User, e: Event, p: ReserveParams)
    requires Sound(r, e.tx) && 0 < e.tx <= e.current && ActionEnabled(r, u, e) && e.action.Borrow?
    ensures var after, later := ReserveStep(r, u, e, p), TotalsAt(PricedBy(r, u, e, p), e.tx, e.current);
            && after.totalStableDebt == later.totalStableDebt && after.totalVariableDebt == later.totalVariableDebt
            && Priceable(after)
            && after.utilizationRate == UtilizationRate(after.totalStableDebt, after.totalVariableDebt,
                                                        after.totalLiquidity)
  {
    hide RayMul, RayDiv, LiquidityIndex, VariableBorrowIndex, TotalStableDebt, StableDebtBalance, AverageStableRate,
      NormalizedDebt, UtilizationRate, RatesFor;
  }

  /** A consistent record whose debts may have grown stays consistent exactly when they have not. */
  lemma GrownConsistentIff(after: Reserve, priced: Reserve, timestamp: int, p: ReserveParams)
    requires ConsistentAt(priced, timestamp, p) && OnlyGrown(after, priced) && Sound(after, timestamp)
         && Priceable(after)
    requires after.utilizationRate == UtilizationRate(after.totalStableDebt, after.totalVariableDebt,
                                                      after.totalLiquidity)
    ensures ConsistentAt(after, timestamp, p)
       <==> after.totalStableDebt == priced.totalStableDebt && after.totalVariableDebt == priced.totalVariableDebt
  {
    hide RayMul, TotalStableDebt, UtilizationRate, RatesFor;
    if after.totalStableDebt == priced.totalStableDebt && after.totalVariableDebt == priced.totalVariableDebt {
      assert priced.utilizationRate
          == UtilizationRate(priced.totalStableDebt, priced.totalVariableDebt, priced.totalLiquidity);
      assert after == priced;
    }
  }

  /** A priced reserve is consistent exactly when its totals are those of its debts. */
  lemma PricedConsistentIff(r: Reserve, timestamp: int, p: ReserveParams)
    requires Priceable(r) && Sound(Repriced(r, p), timestamp)
    ensures ConsistentAt(Repriced(r, p), timestamp, p) <==> TotalsMatch(r, timestamp)
    ensures Repriced(r, p).principalStableDebt == r.principalStableDebt
  {
    hide RatesFor, UtilizationRate, RayMul, TotalStableDebt;
  }

  // ---------- Utilization moves the rates ----------

  /** With fixed debts, all three rates rise with utilization. */
  lemma RatesFollowUtilization(p: ReserveParams, market: int, u1: int, u2: int, s: int, v: int, avg: int)
    requires 0 <= u1 <= u2 && 0 <= s && 0 <= v && 0 <= avg
    ensures var lower, upper := RatesFor(p, market, u1, s, v, avg), RatesFor(p, market, u2, s, v, avg);
            && lower.liquidityRate <= upper.liquidityRate
            && lower.stableBorrowRate <= upper.stableBorrowRate
            && lower.variableBorrowRate <= upper.variableBorrowRate
  {
    hide VariableRate, StableRate, OverallBorrowRate, LiquidityRate;
    BorrowRatesFollowUtilization(p, market, u1, u2);
    BorrowRatesFollowUtilization(p, market, u2, u2);
    BorrowRateFloor(p, u1);
    OverallMono(s, v, VariableRate(p, u1), VariableRate(p, u2), avg);
    LiquidityRateMono(p, OverallBorrowRate(s, v, VariableRate(p, u1), avg), u1,
                      OverallBorrowRate(s, v, VariableRate(p, u2), avg), u2);
  }

  lemma BorrowRateFloor(p: ReserveParams, u: int)
    requires 0 <= u
    ensures VariableRate(p, u) >= 0
  {
    BorrowRatesFollowUtilization(p, 0, u, u);
  }

  /** Turning cash into debt never lowers utilization. */
  lemma CashIntoDebt(s: int, v1: int, a1: int, v2: int, a2: int)
    requires 0 <= s && 0 <= v1 <= v2 && 0 <= a2 <= a1
    ensures 0 <= UtilizationRate(s, v1, a1 + s + v1) <= UtilizationRate(s, v2, a2 + s + v2)
  {
    var t1, t2 := s + v1, s + v2;
    MulMono(t1, t2, a2);
    MulMono(a2, a1, t2);
    assert t1 * (a2 + t2) == t1 * a2 + t1 * t2;
    assert t2 * (a1 + t1) == a1 * t2 + t1 * t2;
    hide UtilizationRate;
    if t1 > 0 || t2 == 0 {
      UtilizationMono(s, v1, a1 + s + v1, s, v2, a2 + s + v2);
    } else {
      UtilizationMono(0, 0, a1, s, v2, a2 + s + v2);
      NoDebtNoUtilization(a1);
    }
  }

  /** More liquidity over the same debt never raises utilization. */
  lemma MoreLiquidity(s: int, v: int, l: int, amount: int)
    requires 0 <= s && 0 <= v && 0 <= amount && (s + v > 0 ==> l > 0)
    ensures 0 <= UtilizationRate(s, v, l + amount) <= UtilizationRate(s, v, l)
  {
    MulMono(l, l + amount, s + v);
    UtilizationMono(s, v, l + amount, s, v, l);
  }

  lemma NoDebtNoUtilization(l: int)
    ensures UtilizationRate(0, 0, l) == 0
  {
  }

  // ---------- The three actions ----------

  /** A deposit never raises any of the three rates. */
  lemma DepositLowersRates(amount: int, r: Reserve, tx: int, p: ReserveParams)
    requires ConsistentAt(r, tx, p) && amount >= 0
    ensures Priceable(DepositMoved(amount, r, tx))
    ensures var after := AfterDeposit(amount, r, tx, p);
            && after.liquidityRate <= r.liquidityRate
            && after.stableBorrowRate <= r.stableBorrowRate
            && after.variableBorrowRate <= r.variableBorrowRate
  {
    hide RayMul, UtilizationRate, TotalStableDebt, LiquidityIndex, VariableBorrowIndex, RatesFor, Solvent;
    DepositBalanced(amount, r, tx);
    RepricedSound(DepositMoved(amount, r, tx), tx, p);
    NothingAccrues(r, 0, 0, tx);
    var s, v, l := r.totalStableDebt, r.totalVariableDebt, r.totalLiquidity;
    MoreLiquidity(s, v, l, amount);
    RatesFollowUtilization(p, r.marketStableRate, UtilizationRate(s, v, l + amount), UtilizationRate(s, v, l), s, v,
                           r.averageStableBorrowRate);
  }

  /** A variable repayment within the debt never raises either borrow rate. */
  lemma RepayLowersBorrowRates(amount: int, r: Reserve, u: User, tx: int, p: ReserveParams)
    requires ConsistentAt(r, tx, p) && 0 < tx
    requires 0 <= RepayAmount(amount, Variable, r, u, tx) <= r.totalVariableDebt
    ensures RepayDefined(amount, Variable, r, u, tx)
    ensures var after := AfterRepay(amount, Variable, r, u, tx, p);
            && after.stableBorrowRate <= r.stableBorrowRate
            && after.variableBorrowRate <= r.variableBorrowRate
  {
    hide RayMul, RayDiv, UtilizationRate, TotalStableDebt, LiquidityIndex, VariableBorrowIndex, VariableRate,
      StableRate,
      OverallBorrowRate, LiquidityRate, VariableDebtBalance, Solvent;
    NothingAccrues(r, 0, 0, tx);
    var paid := RepayAmount(amount, Variable, r, u, tx);
    RepayWithinDebt(paid, r, tx);
    RepayBalancedIff(paid, Variable, r, u, tx);
    RepricedSound(RepayMoved(paid, Variable, r, u, tx), tx, p);
    UnscaleWithin(paid, r.scaledVariableDebt, r.variableBorrowIndex);
    var scaled := r.scaledVariableDebt - RayDiv(paid, r.variableBorrowIndex);
    RayMulMono(scaled, r.scaledVariableDebt, r.variableBorrowIndex);
    var v := RayMul(scaled, r.variableBorrowIndex);
    CashIntoDebt(r.totalStableDebt, v, r.availableLiquidity + paid, r.totalVariableDebt, r.availableLiquidity);
    BorrowRatesFollowUtilization(p, r.marketStableRate,
                                 UtilizationRate(r.totalStableDebt, v,
                                                 r.availableLiquidity + paid + r.totalStableDebt + v),
                                 UtilizationRate(r.totalStableDebt, r.totalVariableDebt, r.totalLiquidity));
  }

  /** A variable borrow never lowers either borrow rate. */
  lemma BorrowRaisesBorrowRates(amount: int, r: Reserve, tx: int, p: ReserveParams)
    requires ConsistentAt(r, tx, p) && 0 < tx && 0 <= amount <= r.availableLiquidity
    ensures BorrowDefined(amount, Variable, r, tx, tx, p)
    ensures var after := AfterBorrow(amount, Variable, r, tx, tx, p);
            && after.stableBorrowRate >= r.stableBorrowRate
            && after.variableBorrowRate >= r.variableBorrowRate
  {
    hide RayMul, RayDiv, UtilizationRate, TotalStableDebt, LiquidityIndex, VariableBorrowIndex, VariableRate,
      StableRate,
      OverallBorrowRate, LiquidityRate, StableDebtBalance, NormalizedDebt;
    NothingAccrues(r, 0, 0, tx);
    BorrowSound(amount, Variable, r, tx, tx, p);
    BorrowWithoutDelay(amount, Variable, r, tx, p);
    StableBalancesAgree(r, tx);
    RayDivRounds(amount, r.variableBorrowIndex);
    hide IsRounded;
    var scaled := r.scaledVariableDebt + RayDiv(amount, r.variableBorrowIndex);
    RayMulMono(r.scaledVariableDebt, scaled, r.variableBorrowIndex);
    var v := RayMul(scaled, r.variableBorrowIndex);
    CashIntoDebt(r.totalStableDebt, r.totalVariableDebt, r.availableLiquidity, v, r.availableLiquidity - amount);
    BorrowRatesFollowUtilization(p, r.marketStableRate,
                                 UtilizationRate(r.totalStableDebt, r.totalVariableDebt, r.totalLiquidity),
                                 UtilizationRate(r.totalStableDebt, v,
                                                 r.availableLiquidity - amount + r.totalStableDebt + v));
  }
}
