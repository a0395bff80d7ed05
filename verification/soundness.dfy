/** What every action keeps of a reserve (test-suites/test-palmy/helpers/utils/calculations.ts). */
module Soundness {
  import opened FixedPoint
  import opened Interest
  import opened Rates
  import opened Records
  import opened Balances
  import opened ReserveSteps

  /** Balances and indexes in order: indexes of at least one ray, nothing negative, recorded
      totals that cover the principals, and timestamps in the past. */
  ghost predicate Balanced(r: Reserve, clock: int) {
    && r.liquidityIndex >= RAY && r.variableBorrowIndex >= RAY
    && r.availableLiquidity >= 0
    && r.totalStableDebt >= r.principalStableDebt >= 0
    && r.totalVariableDebt >= r.scaledVariableDebt >= 0
    && r.averageStableBorrowRate >= 0 && r.marketStableRate >= 0
    && r.totalLiquidity >= r.availableLiquidity + r.principalStableDebt + r.scaledVariableDebt
    && (r.totalStableDebt > 0 || r.totalVariableDebt > 0 ==> r.totalLiquidity > 0)
    && r.lastUpdateTimestamp <= clock && r.totalStableDebtLastUpdated <= clock
    && (r.totalStableDebtLastUpdated == 0 ==> r.principalStableDebt == 0)
  }

  /** A balanced reserve with non-negative rates, paying no deposit interest at zero utilization. */
  ghost predicate Sound(r: Reserve, clock: int) {
    && Balanced(r, clock)
    && r.liquidityRate >= 0 && r.variableBorrowRate >= 0 && r.stableBorrowRate >= 0
    && r.utilizationRate >= 0
    && (r.utilizationRate == 0 ==> r.liquidityRate == 0)
  }

  /** Depositors are promised their share of what borrowers pay, up to rounding dust, and never
      more than borrowers pay. */
  ghost predicate Solvent(r: Reserve, p: ReserveParams) {
    var overall := OverallBorrowRate(r.totalStableDebt, r.totalVariableDebt, r.variableBorrowRate,
                                     r.averageStableBorrowRate);
    var dust := EarningsDust(r.totalStableDebt + r.totalVariableDebt, r.totalLiquidity, overall);
    var paid := 2 * RAY * (r.totalVariableDebt * r.variableBorrowRate + r.totalStableDebt * r.averageStableBorrowRate);
    var earned := 2 * RAY * (r.liquidityRate * r.totalLiquidity);
    var share := PERCENTAGE_FACTOR - p.reserveFactor;
    && earned <= paid + dust
    && Near(PERCENTAGE_FACTOR * earned, share * paid, share * dust + PERCENTAGE_FACTOR * RAY * r.totalLiquidity)
  }

  // ---------- Pricing ----------

  lemma RatesNonNegative(p: ReserveParams, market: int, u: int, s: int, v: int, avg: int)
    requires market >= 0 && u >= 0 && s >= 0 && v >= 0 && avg >= 0
    ensures var rates := RatesFor(p, market, u, s, v, avg);
            && rates.liquidityRate >= 0 && rates.stableBorrowRate >= 0 && rates.variableBorrowRate >= 0
            && (u == 0 ==> rates.liquidityRate == 0)
  {
    hide VariableRate, StableRate, OverallBorrowRate;
    BorrowRatesFollowUtilization(p, market, u, u);
    var rate := VariableRate(p, u);
    OverallMono(s, v, rate, rate, avg);
    var overall := OverallBorrowRate(s, v, rate, avg);
    LiquidityRateMono(p, overall, u, overall, u);
    if u == 0 {
      assert overall * 0 == 0;
      assert RayMul(overall, 0) == 0;
      assert LiquidityRate(p, overall, 0) == 0;
    }
  }

  /** Pricing a balanced reserve makes it sound and solvent. */
  lemma RepricedSound(r: Reserve, clock: int, p: ReserveParams)
    requires Balanced(r, clock)
    ensures Priceable(r)
    ensures Sound(Repriced(r, p), clock)
    ensures Solvent(Repriced(r, p), p)
  {
    var s, v, l := r.totalStableDebt, r.totalVariableDebt, r.totalLiquidity;
    var u := UtilizationRate(s, v, l);
    UtilizationMono(s, v, l, s, v, l);
    hide UtilizationRate, EarningsDust;
    RatesNonNegative(p, r.marketStableRate, u, s, v, r.averageStableBorrowRate);
    if l > 0 {
      hide LiquidityRate, OverallBorrowRate, VariableRate, StableRate;
      PromisedAtMostPaid(p, s, v, l, VariableRate(p, u), r.averageStableBorrowRate);
      DepositorsShare(p, s, v, l, VariableRate(p, u), r.averageStableBorrowRate);
    } else {
      EmptySolvent(Repriced(r, p), p);
    }
  }

  /** Nothing is earned or paid in an empty reserve. */
  lemma EmptySolvent(r: Reserve, p: ReserveParams)
    requires r.totalStableDebt == 0 && r.totalVariableDebt == 0 && r.totalLiquidity == 0
    ensures Solvent(r, p)
  {
    hide OverallBorrowRate;
    var overall := OverallBorrowRate(0, 0, r.variableBorrowRate, r.averageStableBorrowRate);
    assert r.liquidityRate * 0 == 0 && 0 * r.variableBorrowRate == 0 && 0 * r.averageStableBorrowRate == 0
        && 0 * overall == 0;
    var share := PERCENTAGE_FACTOR - p.reserveFactor;
    ProductNonNegative(share, 2 * RAY * WAD);
  }

  // ---------- The single actions ----------

  lemma TotalsCover(r: Reserve, principal: int, average: int, scaled: int, tx: int)
    requires Balanced(r, tx) && r.variableBorrowRate >= 0
    requires principal >= 0 && average >= 0 && scaled >= 0
    ensures VariableBorrowIndex(r, tx) >= r.variableBorrowIndex
    ensures TotalStableDebt(principal, average, r.totalStableDebtLastUpdated, tx) >= principal
    ensures principal == 0 ==> TotalStableDebt(principal, average, r.totalStableDebtLastUpdated, tx) == 0
    ensures RayMul(scaled, VariableBorrowIndex(r, tx)) >= scaled
    ensures scaled == 0 ==> RayMul(scaled, VariableBorrowIndex(r, tx)) == 0
  {
    VariableBorrowIndexGrows(r, tx);
    StableDebtGrows(principal, average, r.totalStableDebtLastUpdated, tx);
    RayMulGrows(scaled, VariableBorrowIndex(r, tx));
    RayMulZero(CompoundedInterest(average, tx, r.totalStableDebtLastUpdated));
    RayMulZero(VariableBorrowIndex(r, tx));
  }

  lemma DepositBalanced(amount: int, r: Reserve, tx: int)
    requires Sound(r, tx) && amount >= 0
    ensures Balanced(DepositMoved(amount, r, tx), tx)
  {
    hide RayMul, LiquidityIndex, VariableBorrowIndex, TotalStableDebt;
    LiquidityIndexGrows(r, tx);
    TotalsCover(r, r.principalStableDebt, r.averageStableBorrowRate, r.scaledVariableDebt, tx);
  }

  lemma WithdrawBalanced(amount: int, r: Reserve, tx: int)
    requires Sound(r, tx) && 0 <= amount <= r.availableLiquidity
    ensures Balanced(WithdrawMoved(amount, r, tx), tx)
  {
    hide RayMul, LiquidityIndex, VariableBorrowIndex, TotalStableDebt;
    LiquidityIndexGrows(r, tx);
    TotalsCover(r, r.principalStableDebt, r.averageStableBorrowRate, r.scaledVariableDebt, tx);
  }

  /** A weighted average of non-negative rates is non-negative. */
  lemma AverageNonNegative(average: int, total: int, change: int, rate: int)
    requires average * total + rate * change >= 0 && total + change >= 0
    ensures AverageStableRate(average, total, change, rate) >= 0
  {
    if total + change > 0 {
      TruncDivFloor(average * total + rate * change, total + change);
    }
  }

  lemma BorrowBalanced(amount: int, mode: RateMode, r: Reserve, tx: int)
    requires Sound(r, tx) && tx > 0 && 0 <= amount <= r.availableLiquidity
    ensures VariableBorrowIndex(r, tx) >= RAY
    ensures Balanced(BorrowMoved(amount, mode, r, tx), tx)
  {
    hide RayMul, RayDiv, LiquidityIndex, VariableBorrowIndex, TotalStableDebt, AverageStableRate, StableDebtBalance;
    LiquidityIndexGrows(r, tx);
    TotalsCover(r, r.principalStableDebt, r.averageStableBorrowRate, r.scaledVariableDebt, tx);
    if mode == Stable {
      var debt := StableDebtUntil(r, tx);
      ProductNonNegative(r.averageStableBorrowRate, debt);
      ProductNonNegative(r.stableBorrowRate, amount);
      AverageNonNegative(r.averageStableBorrowRate, debt, amount, r.stableBorrowRate);
    } else {
      RayDivRounds(amount, VariableBorrowIndex(r, tx));
      hide IsRounded;
      TotalsCover(r, 0, 0, r.scaledVariableDebt + RayDiv(amount, VariableBorrowIndex(r, tx)), tx);
      StableDebtGrows(r.principalStableDebt, r.averageStableBorrowRate, r.totalStableDebtLastUpdated, tx);
    }
  }

  /** An amount of variable debt that unscales to at most the reserve's scaled debt. */
  ghost predicate ScaledWithin(amount: int, r: Reserve, tx: int) {
    VariableBorrowIndex(r, tx) != 0 && RayDiv(amount, VariableBorrowIndex(r, tx)) <= r.scaledVariableDebt
  }

  /** A repayment keeps the reserve balanced exactly when it is stable, and then clamped, or unscales
      to at most the reserve's scaled debt. */
  lemma RepayBalancedIff(amount: int, mode: RateMode, r: Reserve, u: User, tx: int)
    requires Sound(r, tx) && tx > 0 && amount >= 0
    ensures VariableBorrowIndex(r, tx) >= RAY
    ensures Balanced(RepayMoved(amount, mode, r, u, tx), tx) <==> mode == Stable || ScaledWithin(amount, r, tx)
  {
    hide RayMul, RayDiv, LiquidityIndex, VariableBorrowIndex, TotalStableDebt, StableBurn, IsRounded, StableSurvives;
    LiquidityIndexGrows(r, tx);
    TotalsCover(r, r.principalStableDebt, r.averageStableBorrowRate, r.scaledVariableDebt, tx);
    if mode == Stable {
      BurnSurvivesIff(r.averageStableBorrowRate, StableDebtUntil(r, tx), amount, u.stableBorrowRate);
    } else if ScaledWithin(amount, r, tx) {
      RayDivRounds(amount, VariableBorrowIndex(r, tx));
      TotalsCover(r, 0, 0, r.scaledVariableDebt - RayDiv(amount, VariableBorrowIndex(r, tx)), tx);
    }
  }

  /** In particular a repayment within the accrued variable debt does. */
  lemma RepayWithinDebt(amount: int, r: Reserve, tx: int)
    requires Sound(r, tx) && 0 <= amount <= RayMul(r.scaledVariableDebt, VariableBorrowIndex(r, tx))
    ensures ScaledWithin(amount, r, tx)
  {
    hide RayMul, RayDiv, VariableBorrowIndex;
    VariableBorrowIndexGrows(r, tx);
    UnscaleWithin(amount, r.scaledVariableDebt, VariableBorrowIndex(r, tx));
  }

  /** What a swap needs, as it has no clamp of its own. Leaving the stable rate: the user's stable
      debt is all of the reserve's, or less and light enough for the average to stay non-negative.
      Leaving the variable rate: the user's debt unscales to at most the reserve's scaled debt. */
  ghost predicate SwapWithin(r: Reserve, u: User, mode: RateMode, tx: int) {
    if mode == Stable then
      && UserStableDebt(u, tx) >= 0
      && StableSurvives(r.averageStableBorrowRate, StableDebtUntil(r, tx), UserStableDebt(u, tx), u.stableBorrowRate)
    else
      VariableDebtBalance(r, u, tx) >= 0 && ScaledWithin(VariableDebtBalance(r, u, tx), r, tx)
  }

  /** Swapping a non-negative debt keeps the reserve balanced exactly under that condition; without
      it the reserve's debt or its average rate turns negative. */
  lemma SwapBalancedIff(r: Reserve, u: User, mode: RateMode, tx: int)
    requires Sound(r, tx) && tx > 0
    requires if mode == Stable then UserStableDebt(u, tx) >= 0 else VariableDebtBalance(r, u, tx) >= 0
    ensures VariableBorrowIndex(r, tx) >= RAY
    ensures Balanced(SwapMoved(r, u, mode, tx), tx) <==> SwapWithin(r, u, mode, tx)
  {
    hide RayMul, RayDiv, LiquidityIndex, VariableBorrowIndex, TotalStableDebt, AverageStableRate, StableDebtBalance,
      VariableDebtBalance,
      IsRounded, StableSurvives;
    LiquidityIndexGrows(r, tx);
    TotalsCover(r, r.principalStableDebt, r.averageStableBorrowRate, r.scaledVariableDebt, tx);
    var index := VariableBorrowIndex(r, tx);
    if mode == Stable {
      var debt, moved := StableDebtUntil(r, tx), UserStableDebt(u, tx);
      if moved <= debt {
        AverageSign(r.averageStableBorrowRate, debt, moved, u.stableBorrowRate);
      } else {
        NothingSurvivesMore(r.averageStableBorrowRate, debt, moved, u.stableBorrowRate);
      }
      RayDivRounds(moved, index);
      TotalsCover(r, 0, 0, r.scaledVariableDebt + RayDiv(moved, index), tx);
    } else {
      var moved := VariableDebtBalance(r, u, tx);
      RayDivRounds(moved, index);
      if RayDiv(moved, index) <= r.scaledVariableDebt {
        TotalsCover(r, 0, 0, r.scaledVariableDebt - RayDiv(moved, index), tx);
      }
      ProductNonNegative(r.averageStableBorrowRate, r.totalStableDebt);
      ProductNonNegative(r.stableBorrowRate, moved);
      AverageNonNegative(r.averageStableBorrowRate, r.totalStableDebt, moved, r.stableBorrowRate);
    }
  }

  lemma NothingSurvivesMore(average: int, debt: int, amount: int, rate: int)
    requires amount > debt
    ensures !StableSurvives(average, debt, amount, rate)
  {
  }

  /** The second half of a rebalance starts from an empty total when the user holds all of it. */
  lemma SoleBorrowerAverage(averageWithout: int, debt: int, rate: int)
    requires debt >= 0 && rate >= 0
    ensures AverageStableRateRebalance(averageWithout, 0, debt, rate) >= 0
    ensures debt > 0 ==>
              AverageStableRateRebalance(averageWithout, 0, debt, rate)
              == RayDiv(RayMul(rate, WadToRay(debt)), WadToRay(debt))
  {
    assert averageWithout * 0 == 0;
    assert RayMul(averageWithout, 0) == 0;
    if debt > 0 {
      RayMulRounds(rate, WadToRay(debt));
      hide RayMul, RayDiv;
      RayDivRounds(RayMul(rate, WadToRay(debt)), WadToRay(debt));
    }
  }

  /** What the second half of a rebalance divides, and by what: the debts of the others, and the
      user's in rays. */
  function RebalanceNumerator(r: Reserve, u: User, tx: int): int {
    var debt, userDebt := StableDebtUntil(r, tx), UserStableDebt(u, tx);
    var averageWithout := AverageStableRateRebalance(r.averageStableBorrowRate, debt, -userDebt, u.stableBorrowRate);
    RayMul(averageWithout, debt - userDebt) + RayMul(r.stableBorrowRate, WadToRay(userDebt))
  }

  function RebalanceDenominator(r: Reserve, u: User, tx: int): int {
    StableDebtUntil(r, tx) - UserStableDebt(u, tx) + WadToRay(UserStableDebt(u, tx))
  }

  /** What a rebalance needs, as it has no clamp either: nothing to average over, or a weight that does
      not fall below zero by more than rounding forgives. */
  ghost predicate RebalanceWithin(r: Reserve, u: User, tx: int) {
    var n, d := RebalanceNumerator(r, u, tx), RebalanceDenominator(r, u, tx);
    UserStableDebt(u, tx) >= 0 && (d == 0 || TruncDiv(d, 2) + n * RAY > -d)
  }

  /** Rebalancing a non-negative debt, whoever else borrows, keeps the reserve balanced exactly under
      that condition; without it the average rate turns negative. */
  lemma RebalanceBalancedIff(r: Reserve, u: User, tx: int)
    requires Sound(r, tx) && tx > 0 && UserStableDebt(u, tx) >= 0
    ensures Balanced(RebalanceMoved(r, u, tx), tx) <==> RebalanceWithin(r, u, tx)
  {
    hide RayMul, LiquidityIndex, VariableBorrowIndex, TotalStableDebt, StableDebtBalance, AverageStableRateRebalance;
    LiquidityIndexGrows(r, tx);
    TotalsCover(r, r.principalStableDebt, r.averageStableBorrowRate, r.scaledVariableDebt, tx);
    var debt, userDebt := StableDebtUntil(r, tx), UserStableDebt(u, tx);
    RebalanceSign(AverageStableRateRebalance(r.averageStableBorrowRate, debt, -userDebt, u.stableBorrowRate),
                  debt - userDebt, userDebt, r.stableBorrowRate);
  }

  lemma RebalanceSign(averageWithout: int, rest: int, debt: int, rate: int)
    requires rest + WadToRay(debt) >= 0
    ensures var n, d := RayMul(averageWithout, rest) + RayMul(rate, WadToRay(debt)), rest + WadToRay(debt);
            AverageStableRateRebalance(averageWithout, rest, debt, rate) >= 0
            <==> d == 0 || TruncDiv(d, 2) + n * RAY > -d
  {
    var n, d := RayMul(averageWithout, rest) + RayMul(rate, WadToRay(debt)), rest + WadToRay(debt);
    hide RayMul, TruncDiv;
    if d > 0 {
      TruncSign(TruncDiv(d, 2) + n * RAY, d);
    }
  }

  /** In particular rebalancing the only stable borrower does. */
  lemma SoleRebalanceWithin(r: Reserve, u: User, tx: int)
    requires Sound(r, tx) && tx > 0 && UserStableDebt(u, tx) == StableDebtUntil(r, tx)
    ensures RebalanceWithin(r, u, tx)
  {
    hide RayMul, TotalStableDebt, StableDebtBalance, AverageStableRateRebalance;
    StableDebtGrows(r.principalStableDebt, r.averageStableBorrowRate, r.totalStableDebtLastUpdated, tx);
    var debt := StableDebtUntil(r, tx);
    var averageWithout := AverageStableRateRebalance(r.averageStableBorrowRate, debt, -debt, u.stableBorrowRate);
    SoleBorrowerAverage(averageWithout, debt, r.stableBorrowRate);
    RebalanceSign(averageWithout, 0, debt, r.stableBorrowRate);
  }

  // ---------- Totals after a delay ----------

  lemma UtilizationGrowsWithDebt(a: int, s1: int, v1: int, s2: int, v2: int)
    requires a >= 0 && 0 <= s1 <= s2 && 0 <= v1 <= v2
    ensures 0 <= UtilizationRate(s1, v1, a + s1 + v1) <= UtilizationRate(s2, v2, a + s2 + v2)
  {
    hide UtilizationRate;
    var t1, t2 := s1 + v1, s2 + v2;
    MulMono(t1, t2, a);
    assert t1 * (a + t2) == t1 * a + t1 * t2 && t2 * (a + t1) == t2 * a + t1 * t2;
    UtilizationMono(s1, v1, a + s1 + v1, s2, v2, a + s2 + v2);
  }

  /** Debts only grow when totals are brought forward at the reserve's own rates. */
  lemma TotalsAtGrow(r: Reserve, tx: int, current: int)
    requires Sound(r, tx) && tx <= current
    requires r.totalStableDebt <= TotalStableDebt(r.principalStableDebt, r.averageStableBorrowRate,
                                                  r.totalStableDebtLastUpdated, tx)
    requires r.totalVariableDebt == RayMul(r.scaledVariableDebt, r.variableBorrowIndex)
    ensures TotalsAt(r, tx, current).totalStableDebt >= r.totalStableDebt
    ensures TotalsAt(r, tx, current).totalVariableDebt >= r.totalVariableDebt
  {
    hide RayMul, NormalizedDebt, CompoundedInterest;
    var last := r.totalStableDebtLastUpdated;
    CompoundedAtLeastOne(r.averageStableBorrowRate, tx, last);
    CompoundedMono(r.averageStableBorrowRate, tx, current, last);
    RayMulMono(CompoundedInterest(r.averageStableBorrowRate, tx, last),
               CompoundedInterest(r.averageStableBorrowRate, current, last),
               r.principalStableDebt);
    NormalizedDebtGrows(r.variableBorrowRate, r.variableBorrowIndex, tx, current);
    RayMulMono(r.variableBorrowIndex, NormalizedDebt(r.variableBorrowRate, r.variableBorrowIndex, tx, current),
               r.scaledVariableDebt);
  }

  /** A sound reserve stays sound when its totals are brought forward at its own rates. */
  lemma TotalsAtSound(r: Reserve, tx: int, current: int)
    requires Sound(r, tx) && tx <= current
    requires r.utilizationRate == UtilizationRate(r.totalStableDebt, r.totalVariableDebt, r.totalLiquidity)
    requires r.totalLiquidity == r.availableLiquidity + r.totalStableDebt + r.totalVariableDebt
    requires r.totalStableDebt <= TotalStableDebt(r.principalStableDebt, r.averageStableBorrowRate,
                                                  r.totalStableDebtLastUpdated, tx)
    requires r.totalVariableDebt == RayMul(r.scaledVariableDebt, r.variableBorrowIndex)
    ensures Priceable(TotalsAt(r, tx, current))
    ensures Sound(WithUtilization(TotalsAt(r, tx, current)), tx)
  {
    hide RayMul, UtilizationRate, NormalizedDebt, TotalStableDebt;
    TotalsAtGrow(r, tx, current);
    var later := TotalsAt(r, tx, current);
    UtilizationGrowsWithDebt(r.availableLiquidity, r.totalStableDebt, r.totalVariableDebt, later.totalStableDebt,
                             later.totalVariableDebt);
  }

  lemma StableBalancesAgree(r: Reserve, tx: int)
    requires Balanced(r, tx)
    ensures StableDebtBalance(r.principalStableDebt, r.averageStableBorrowRate, r.totalStableDebtLastUpdated, tx)
         == StableDebtUntil(r, tx)
  {
    var last := r.totalStableDebtLastUpdated;
    RayMulUnit(r.principalStableDebt);
    RayMulCommutes(r.principalStableDebt, CompoundedInterest(r.averageStableBorrowRate, tx, last));
    RayMulZero(CompoundedInterest(r.averageStableBorrowRate, tx, last));
    if r.averageStableBorrowRate == 0 {
      CompoundedZeroRate(tx, last);
    }
    hide RayMul;
  }

  lemma BorrowSound(amount: int, mode: RateMode, r: Reserve, tx: int, current: int, p: ReserveParams)
    requires Sound(r, tx) && 0 < tx <= current && 0 <= amount <= r.availableLiquidity
    ensures BorrowDefined(amount, mode, r, tx, current, p)
    ensures Sound(AfterBorrow(amount, mode, r, tx, current, p), tx)
    ensures AfterBorrow(amount, mode, r, tx, current, p).totalStableDebt
         >= BorrowMoved(amount, mode, r, tx).totalStableDebt
    ensures AfterBorrow(amount, mode, r, tx, current, p).totalVariableDebt
         >= BorrowMoved(amount, mode, r, tx).totalVariableDebt
  {
    hide RayMul, RayDiv, LiquidityIndex, VariableBorrowIndex, AverageStableRate, StableDebtBalance, UtilizationRate,
      RatesFor,
      CompoundedInterest;
    BorrowBalanced(amount, mode, r, tx);
    var moved := BorrowMoved(amount, mode, r, tx);
    RepricedSound(moved, tx, p);
    if mode == Stable {
      StableDebtGrows(moved.principalStableDebt, moved.averageStableBorrowRate, tx, tx);
    } else {
      StableBalancesAgree(r, tx);
    }
    TotalsAtSound(Repriced(moved, p), tx, current);
    TotalsAtGrow(Repriced(moved, p), tx, current);
  }

  /** Without a delay the recorded totals are the priced ones. */
  lemma BorrowWithoutDelay(amount: int, mode: RateMode, r: Reserve, tx: int, p: ReserveParams)
    requires Sound(r, tx) && 0 < tx && 0 <= amount <= r.availableLiquidity
    requires BorrowDefined(amount, mode, r, tx, tx, p)
    ensures AfterBorrow(amount, mode, r, tx, tx, p) == Repriced(BorrowMoved(amount, mode, r, tx), p)
  {
    BorrowBalanced(amount, mode, r, tx);
    var moved := BorrowMoved(amount, mode, r, tx);
    var priced := Repriced(moved, p);
    if mode == Stable {
      NothingAccrues(priced, priced.principalStableDebt, priced.averageStableBorrowRate, tx);
    } else {
      StableBalancesAgree(r, tx);
      NothingAccrues(priced, 0, 0, tx);
    }
    hide RayMul, RayDiv, LiquidityIndex, VariableBorrowIndex, AverageStableRate, StableDebtBalance, UtilizationRate,
      RatesFor,
      TotalStableDebt, NormalizedDebt;
  }
}
