/** Solvency of balances: what depositors are owed stays covered by what the reserve holds and is owed,
    from one action to the next (test-suites/test-palmy/helpers/utils/calculations.ts). */
module Coverage {
  import opened FixedPoint
  import opened Interest
  import opened Rates
  import opened Records
  import opened Balances
  import opened ReserveSteps
  import opened Soundness
  import opened Runs
  import opened Conservation
  import opened RateMoves

  /** The scale of the bound: two rays for rounding, one for the rates, and a year. */
  const CLAIM_SCALE: int := 2 * RAY * RAY * ONE_YEAR

  /** The dust by which deposits can outgrow the claims in `t` seconds, at that scale: the dust of the
      rates, a unit per second of every rate truncated to a second, and the rounding of the factors. */
  function ClaimsDust(r: Reserve, t: int): int {
    var s, v, l := r.totalStableDebt, r.totalVariableDebt, r.totalLiquidity;
    var overall := OverallBorrowRate(s, v, r.variableBorrowRate, r.averageStableBorrowRate);
    t * EarningsDust(s + v, l, overall)
    + RAY * ONE_YEAR * FactorDust(s + v, v, l, t, TruncDiv(r.liquidityRate * t, ONE_YEAR),
                                  RatePerSecond(r.variableBorrowRate) * t)
  }

  function FactorDust(debts: int, v: int, l: int, t: int, income: int, growth: int): int {
    2 * (t * debts) + income + growth + l + v + 5 * RAY
  }

  // ---------- Deposits ----------

  /** What a deposit is worth after its index has grown by a factor. */
  lemma ClaimGrowth(scaled: int, index: int, factor: int)
    requires scaled >= 0 && index >= 0 && factor >= 0
    ensures 2 * RAY * RayMul(scaled, RayMul(factor, index)) <= factor * (2 * RayMul(scaled, index) + 1) + scaled + RAY
  {
    hide RayMul, IsRounded;
    RayMulRounds(factor, index);
    RayMulRounds(scaled, index);
    RayMulRounds(scaled, RayMul(factor, index));
    ProductStays(scaled, index, factor, RayMul(factor, index), RayMul(scaled, index),
                 RayMul(scaled, RayMul(factor, index)));
  }

  lemma ProductStays(scaled: int, index: int, factor: int, grown: int, worth: int, after: int)
    requires scaled >= 0 && factor >= 0
    requires IsRounded(factor * index, RAY, grown) && IsRounded(scaled * index, RAY, worth)
    requires IsRounded(scaled * grown, RAY, after)
    ensures 2 * RAY * after <= factor * (2 * worth + 1) + scaled + RAY
  {
    MulMono(2 * RAY * grown, 2 * (factor * index) + RAY, scaled);
    MulMono(2 * (scaled * index), 2 * RAY * worth + RAY, factor);
    GrowthProducts(scaled, factor, index, grown, worth);
    StayArithmetic(scaled * grown, (scaled * factor) * index, factor * (2 * worth + 1), scaled, after);
  }

  lemma StayArithmetic(sg: int, sfi: int, fw: int, scaled: int, after: int)
    requires 2 * RAY * sg <= 2 * sfi + RAY * scaled && 2 * sfi <= RAY * fw && 2 * RAY * after <= 2 * sg + RAY
    ensures 2 * RAY * after <= fw + scaled + RAY
  {
  }

  lemma GrowthProducts(scaled: int, factor: int, index: int, grown: int, worth: int)
    ensures (2 * RAY * grown) * scaled == 2 * RAY * (scaled * grown)
    ensures (2 * (factor * index) + RAY) * scaled == 2 * ((scaled * factor) * index) + RAY * scaled
    ensures (2 * (scaled * index)) * factor == 2 * ((scaled * factor) * index)
    ensures (2 * RAY * worth + RAY) * factor == RAY * (factor * (2 * worth + 1))
  {
    assert (scaled * index) * factor == (scaled * factor) * index;
    assert (factor * index) * scaled == (scaled * factor) * index;
  }

  /** Deposits worth at most the liquidity grow by at most its linear interest, and rounding. */
  lemma DepositsGrow(scaled: int, index: int, income: int, liquidity: int)
    requires scaled >= 0 && index >= RAY && income >= 0 && RayMul(scaled, index) <= liquidity
    ensures 2 * RAY * RayMul(scaled, RayMul(RAY + income, index))
         <= 2 * RAY * liquidity + 2 * (income * liquidity) + income + liquidity + 2 * RAY
  {
    hide RayMul, IsRounded;
    ClaimGrowth(scaled, index, RAY + income);
    RayMulGrows(scaled, index);
    var worth := RayMul(scaled, index);
    MulMono(2 * worth + 1, 2 * liquidity + 1, RAY + income);
    ExpandFactor(RAY + income, 2 * worth + 1);
    FactorTimes(income, liquidity);
  }

  lemma FactorTimes(growth: int, amount: int)
    ensures (2 * amount + 1) * (RAY + growth) == 2 * RAY * amount + RAY + 2 * (growth * amount) + growth
    ensures (RAY + growth) * (2 * amount - 1) == 2 * RAY * amount - RAY + 2 * (growth * amount) - growth
  {
    assert amount * (RAY + growth) == RAY * amount + growth * amount;
  }

  lemma ExpandFactor(a: int, b: int)
    ensures a * b == b * a
  {
  }

  // ---------- Debts ----------

  /** Stable debt grows by at least simple interest. */
  lemma StableGrows(principal: int, factor: int, growth: int)
    requires principal >= 0 && growth >= 0 && factor >= RAY + growth
    ensures 2 * RAY * RayMul(factor, principal) >= 2 * RAY * principal + 2 * (growth * principal) - RAY
  {
    RayMulRounds(factor, principal);
    MulMono(RAY + growth, factor, principal);
    assert (RAY + growth) * principal == RAY * principal + growth * principal;
  }

  /** Variable debt, through its rounded index, too. */
  lemma VariableGrows(scaled: int, index: int, factor: int, growth: int)
    requires scaled >= 0 && index >= RAY && growth >= 0 && factor >= RAY + growth
    ensures var debt := RayMul(scaled, index);
            2 * RAY * RayMul(scaled, RayMul(factor, index))
            >= 2 * RAY * debt + 2 * (growth * debt) - growth - debt - 2 * RAY
  {
    hide RayMul, IsRounded;
    RayMulGrows(scaled, index);
    RayMulRounds(factor, index);
    RayMulRounds(scaled, index);
    RayMulRounds(scaled, RayMul(factor, index));
    var grown, debt := RayMul(factor, index), RayMul(scaled, index);
    if debt == 0 {
      assert growth * 0 == 0;
    } else {
      ProductCovers(scaled, index, factor, grown, debt, RayMul(scaled, grown));
      MulMono(RAY + growth, factor, 2 * debt - 1);
      FactorTimes(growth, debt);
    }
  }

  lemma ProductCovers(scaled: int, index: int, factor: int, grown: int, debt: int, after: int)
    requires scaled >= 0 && factor >= 0
    requires IsRounded(factor * index, RAY, grown) && IsRounded(scaled * index, RAY, debt)
    requires IsRounded(scaled * grown, RAY, after)
    ensures 2 * RAY * after >= factor * (2 * debt - 1) - scaled - RAY
  {
    MulMono(2 * (factor * index) - RAY, 2 * RAY * grown, scaled);
    MulMono(2 * RAY * debt - RAY, 2 * (scaled * index), factor);
    ShrinkProducts(scaled, factor, index, grown, debt);
    CoverArithmetic(scaled * grown, (scaled * factor) * index, factor * (2 * debt - 1), scaled, after);
  }

  lemma CoverArithmetic(sg: int, sfi: int, fd: int, scaled: int, after: int)
    requires 2 * RAY * sg >= 2 * sfi - RAY * scaled && 2 * sfi >= RAY * fd && 2 * RAY * after >= 2 * sg - RAY
    ensures 2 * RAY * after >= fd - scaled - RAY
  {
  }

  lemma ShrinkProducts(scaled: int, factor: int, index: int, grown: int, debt: int)
    ensures (2 * RAY * grown) * scaled == 2 * RAY * (scaled * grown)
    ensures (2 * (factor * index) - RAY) * scaled == 2 * ((scaled * factor) * index) - RAY * scaled
    ensures (2 * (scaled * index)) * factor == 2 * ((scaled * factor) * index)
    ensures (2 * RAY * debt - RAY) * factor == RAY * (factor * (2 * debt - 1))
  {
    assert (scaled * index) * factor == (scaled * factor) * index;
    assert (factor * index) * scaled == (scaled * factor) * index;
  }

  // ---------- Deposits against debts ----------

  /** The rates of a consistent record promise depositors at most what borrowers pay, and dust. */
  lemma RatesCovered(r: Reserve, timestamp: int, p: ReserveParams)
    requires ConsistentAt(r, timestamp, p)
    ensures var s, v, l := r.totalStableDebt, r.totalVariableDebt, r.totalLiquidity;
            2 * RAY * (r.liquidityRate * l)
            <= 2 * RAY * (v * r.variableBorrowRate + s * r.averageStableBorrowRate)
               + EarningsDust(s + v, l, OverallBorrowRate(s, v, r.variableBorrowRate, r.averageStableBorrowRate))
  {
    hide RayMul, OverallBorrowRate, EarningsDust, RatesFor, UtilizationRate, TotalStableDebt;
    RepricedSound(r, timestamp, p);
  }

  /** Deposits, from their worth at the time of the record. */
  lemma ClaimAfter(r: Reserve, scaled: int, t0: int, t: int)
    requires Sound(r, t0) && r.lastUpdateTimestamp == t0 <= t
    requires scaled >= 0 && RayMul(scaled, r.liquidityIndex) <= r.totalLiquidity
    ensures var income := TruncDiv(r.liquidityRate * (t - t0), ONE_YEAR);
            && 0 <= income && income * ONE_YEAR <= r.liquidityRate * (t - t0)
            && 2 * RAY * RayMul(scaled, NormalizedIncome(r, t))
               <= 2 * RAY * r.totalLiquidity + 2 * (income * r.totalLiquidity) + income + r.totalLiquidity + 2 * RAY
  {
    hide RayMul, Balanced;
    var income := TruncDiv(r.liquidityRate * (t - t0), ONE_YEAR);
    ProductNonNegative(r.liquidityRate, t - t0);
    TruncDivFloor(r.liquidityRate * (t - t0), ONE_YEAR);
    AtLeastRays(r, t0);
    assert NormalizedIncome(r, t) == RayMul(RAY + income, r.liquidityIndex) by {
      if r.liquidityRate == 0 {
        assert 0 * (t - t0) == 0;
        RayMulUnit(r.liquidityIndex);
      }
    }
    hide TruncDiv, NormalizedIncome;
    DepositsGrow(scaled, r.liquidityIndex, income, r.totalLiquidity);
  }

  lemma AtLeastRays(r: Reserve, t0: int)
    requires Sound(r, t0)
    ensures r.liquidityIndex >= RAY && r.variableBorrowIndex >= RAY && r.scaledVariableDebt >= 0
    ensures r.principalStableDebt >= 0 && r.averageStableBorrowRate >= 0 && r.totalVariableDebt >= r.scaledVariableDebt
  {
  }

  /** Stable debt restarted at the time of the record. */
  lemma StableAfter(r: Reserve, t0: int, t: int)
    requires Sound(r, t0) && TotalsMatch(r, t0) && r.totalStableDebtLastUpdated == t0 <= t
    ensures var growth := RatePerSecond(r.averageStableBorrowRate) * (t - t0);
            && 0 <= growth
            && 2 * RAY * StableDebtUntil(r, t) >= 2 * RAY * r.totalStableDebt + 2 * (growth * r.totalStableDebt) - RAY
  {
    hide RayMul, CompoundedInterest, RatePerSecond, Balanced;
    AtLeastRays(r, t0);
    StableDebtNow(r, t0);
    PerSecondFloor(r.averageStableBorrowRate);
    CompoundedAtLeastSimple(r.averageStableBorrowRate, t, t0);
    ProductNonNegative(RatePerSecond(r.averageStableBorrowRate), t - t0);
    StableGrows(r.principalStableDebt, CompoundedInterest(r.averageStableBorrowRate, t, t0),
                RatePerSecond(r.averageStableBorrowRate) * (t - t0));
  }

  lemma VariableAfter(r: Reserve, t0: int, t: int)
    requires Sound(r, t0) && TotalsMatch(r, t0) && t0 <= t
    ensures var growth := RatePerSecond(r.variableBorrowRate) * (t - t0);
            && 0 <= growth
            && 2 * RAY * RayMul(r.scaledVariableDebt, VariableBorrowIndex(r, t))
               >= 2 * RAY * r.totalVariableDebt + 2 * (growth * r.totalVariableDebt)
                  - growth - r.totalVariableDebt - 2 * RAY
  {
    hide RayMul, CompoundedInterest, RatePerSecond, Balanced;
    AtLeastRays(r, t0);
    PerSecondFloor(r.variableBorrowRate);
    var growth := RatePerSecond(r.variableBorrowRate) * (t - t0);
    ProductNonNegative(RatePerSecond(r.variableBorrowRate), t - t0);
    if r.totalVariableDebt == 0 {
      assert growth * 0 == 0;
    } else {
      CompoundedAtLeastSimple(r.variableBorrowRate, t, t0);
      VariableGrows(r.scaledVariableDebt, r.variableBorrowIndex, CompoundedInterest(r.variableBorrowRate, t, t0),
                    growth);
    }
  }

  /** Solvency of balances: after an action that prices all debts up to date and restarts the stable
      principal, deposits worth at most the total liquidity stay worth at most what the reserve holds
      and is owed, at every later time until the next action, up to dust. */
  lemma ClaimsCovered(r: Reserve, scaled: int, t0: int, t: int, p: ReserveParams)
    requires ConsistentAt(r, t0, p) && r.totalStableDebtLastUpdated == t0 <= t
    requires scaled >= 0 && RayMul(scaled, r.liquidityIndex) <= r.totalLiquidity
    ensures CLAIM_SCALE * (RayMul(scaled, NormalizedIncome(r, t)) - AccruedLiquidity(r, t)) <= ClaimsDust(r, t - t0)
  {
    hide RayMul, NormalizedIncome, TotalStableDebt, VariableBorrowIndex, RatePerSecond, TruncDiv, OverallBorrowRate,
      EarningsDust, Repriced;
    RatesCovered(r, t0, p);
    ClaimAfter(r, scaled, t0, t);
    StableAfter(r, t0, t);
    VariableAfter(r, t0, t);
    PerSecondFloor(r.averageStableBorrowRate);
    PerSecondFloor(r.variableBorrowRate);
    var s, v, l := r.totalStableDebt, r.totalVariableDebt, r.totalLiquidity;
    CoverageArithmetic(RayMul(scaled, NormalizedIncome(r, t)), StableDebtUntil(r, t),
                       RayMul(r.scaledVariableDebt, VariableBorrowIndex(r, t)), r.availableLiquidity, s, v, l, t - t0,
                       r.liquidityRate, r.averageStableBorrowRate, r.variableBorrowRate,
                       TruncDiv(r.liquidityRate * (t - t0), ONE_YEAR), RatePerSecond(r.averageStableBorrowRate),
                       RatePerSecond(r.variableBorrowRate),
                       EarningsDust(s + v, l, OverallBorrowRate(s, v, r.variableBorrowRate,
                                                                r.averageStableBorrowRate)));
  }

  lemma CoverageArithmetic(claim: int, stable: int, variable: int, available: int, s: int, v: int, l: int, t: int,
                           lr: int, sr: int, vr: int, income: int, sps: int, vps: int, dust: int)
    requires s >= 0 && v >= 0 && l == available + s + v && l >= 0 && t >= 0
    requires 2 * RAY * claim <= 2 * RAY * l + 2 * (income * l) + income + l + 2 * RAY
    requires 2 * RAY * stable >= 2 * RAY * s + 2 * ((sps * t) * s) - RAY
    requires 2 * RAY * variable >= 2 * RAY * v + 2 * ((vps * t) * v) - vps * t - v - 2 * RAY
    requires income * ONE_YEAR <= lr * t
    requires sr <= (sps + 1) * ONE_YEAR && vr <= (vps + 1) * ONE_YEAR
    requires 2 * RAY * (lr * l) <= 2 * RAY * (v * vr + s * sr) + dust
    ensures CLAIM_SCALE * (claim - (available + stable + variable))
         <= t * dust + RAY * ONE_YEAR * FactorDust(s + v, v, l, t, income, vps * t)
  {
    IncomeEarned(income, lr, t, l);
    InterestPaid(sps, sr, t, s);
    InterestPaid(vps, vr, t, v);
    TimesTime(lr, l, v, vr, s, sr, t, dust);
    assert t * (s + v) == t * s + t * v;
    CombineCoverage(claim, stable, variable, available, s, v, l, income * l, (sps * t) * s, (vps * t) * v,
                    t * (lr * l), t * (s * sr), t * (v * vr), t * s, t * v, income, vps * t, t * dust);
  }

  lemma IncomeEarned(income: int, lr: int, t: int, l: int)
    requires l >= 0 && income * ONE_YEAR <= lr * t
    ensures ONE_YEAR * (income * l) <= t * (lr * l)
  {
    MulMono(income * ONE_YEAR, lr * t, l);
    assert (income * ONE_YEAR) * l == ONE_YEAR * (income * l);
    assert (lr * t) * l == t * (lr * l);
  }

  lemma InterestPaid(ps: int, rate: int, t: int, debt: int)
    requires t >= 0 && debt >= 0 && rate <= (ps + 1) * ONE_YEAR
    ensures ONE_YEAR * ((ps * t) * debt) >= t * (debt * rate) - ONE_YEAR * (t * debt)
  {
    ProductNonNegative(t, debt);
    MulMono(rate, (ps + 1) * ONE_YEAR, t * debt);
    assert rate * (t * debt) == t * (debt * rate);
    assert ((ps + 1) * ONE_YEAR) * (t * debt) == ONE_YEAR * ((ps * t) * debt) + ONE_YEAR * (t * debt) by {
      assert (ps + 1) * (t * debt) == ps * (t * debt) + t * debt;
      assert ps * (t * debt) == (ps * t) * debt;
    }
  }

  lemma TimesTime(lr: int, l: int, v: int, vr: int, s: int, sr: int, t: int, dust: int)
    requires t >= 0 && 2 * RAY * (lr * l) <= 2 * RAY * (v * vr + s * sr) + dust
    ensures 2 * RAY * (t * (lr * l)) <= 2 * RAY * (t * (v * vr) + t * (s * sr)) + t * dust
  {
    var a, b, c := lr * l, v * vr, s * sr;
    MulMono(2 * RAY * a, 2 * RAY * (b + c) + dust, t);
    assert (2 * RAY * a) * t == 2 * RAY * (t * a);
    assert (2 * RAY * (b + c) + dust) * t == 2 * RAY * (t * b + t * c) + t * dust;
  }

  lemma CombineCoverage(claim: int, stable: int, variable: int, available: int, s: int, v: int, l: int,
                        il: int, ss: int, vv: int, tl: int, ts: int, tv: int, t1: int, t2: int,
                        income: int, growth: int, tdust: int)
    requires l == available + s + v
    requires 2 * RAY * claim <= 2 * RAY * l + 2 * il + income + l + 2 * RAY
    requires 2 * RAY * stable >= 2 * RAY * s + 2 * ss - RAY
    requires 2 * RAY * variable >= 2 * RAY * v + 2 * vv - growth - v - 2 * RAY
    requires ONE_YEAR * il <= tl && ONE_YEAR * ss >= ts - ONE_YEAR * t1 && ONE_YEAR * vv >= tv - ONE_YEAR * t2
    requires 2 * RAY * tl <= 2 * RAY * (tv + ts) + tdust
    ensures CLAIM_SCALE * (claim - (available + stable + variable))
         <= tdust + RAY * ONE_YEAR * (2 * (t1 + t2) + income + growth + l + v + 5 * RAY)
  {
  }

  /** In particular after every action observed without delay that restarts the stable principal. */
  lemma StepCovers(r: Reserve, u: User, e: Event, scaled: int, t: int, p: ReserveParams)
    requires Sound(r, e.tx) && 0 < e.tx == e.current <= t && ActionEnabled(r, u, e)
    requires e.action.SwapRateMode? || e.action.RebalanceStableRate?
          || ((e.action.Borrow? || e.action.Repay?) && e.action.mode == Stable)
    requires scaled >= 0
    requires var after := ReserveStep(r, u, e, p); RayMul(scaled, after.liquidityIndex) <= after.totalLiquidity
    ensures var after := ReserveStep(r, u, e, p);
            CLAIM_SCALE * (RayMul(scaled, NormalizedIncome(after, t)) - AccruedLiquidity(after, t))
                <= ClaimsDust(after, t - e.tx)
  {
    hide RayMul, NormalizedIncome, TotalStableDebt, VariableBorrowIndex, ConsistentAt, AccruedLiquidity, ClaimsDust,
      ReserveStep, TotalsAt, Sound;
    StepConsistentIff(r, u, e, p);
    StepPrices(r, u, e, p);
    if e.action.Borrow? {
      BorrowRecords(r, u, e, p);
    }
    PrincipalRestarts(r, u, e);
    ClaimsCovered(ReserveStep(r, u, e, p), scaled, e.tx, t, p);
  }

  lemma PrincipalRestarts(r: Reserve, u: User, e: Event)
    requires Sound(r, e.tx) && 0 < e.tx && ActionEnabled(r, u, e)
    requires e.action.SwapRateMode? || e.action.RebalanceStableRate?
          || ((e.action.Borrow? || e.action.Repay?) && e.action.mode == Stable)
    ensures Moved(r, u, e).totalStableDebtLastUpdated == e.tx
  {
    hide RayMul, RayDiv, LiquidityIndex, VariableBorrowIndex, TotalStableDebt, StableDebtBalance, AverageStableRate,
      AverageStableRateRebalance, StableBurn, VariableDebtBalance, SwapWithin, RebalanceWithin, Sound;
  }
}
