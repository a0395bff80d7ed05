/** Utilization, the kinked rate curve, and the split of borrow interest between depositors
    and the treasury (test-suites/test-palmy/helpers/utils/calculations.ts). */
module Rates {
  import opened FixedPoint

  /** The part of a reserve's configuration that the rate curve reads. */
  datatype RawParams = RawParams(
    optimalUtilizationRate: int,
    baseVariableBorrowRate: int,
    variableRateSlope1: int,
    variableRateSlope2: int,
    stableRateSlope1: int,
    stableRateSlope2: int,
    reserveFactor: int)
  {
    predicate Valid() {
      && 0 < optimalUtilizationRate < RAY
      && 0 <= baseVariableBorrowRate
      && 0 <= variableRateSlope1 && 0 <= variableRateSlope2
      && 0 <= stableRateSlope1 && 0 <= stableRateSlope2
      && 0 <= reserveFactor <= PERCENTAGE_FACTOR
    }
  }

  type ReserveParams = p: RawParams | p.Valid() witness RawParams(1, 0, 0, 0, 0, 0, 0)

  datatype InterestRates = InterestRates(liquidityRate: int, stableBorrowRate: int, variableBorrowRate: int)

  // ---------- The reference definitions ----------

  function UtilizationRate(totalStableDebt: int, totalVariableDebt: int, totalLiquidity: int): int
    requires (totalStableDebt == 0 && totalVariableDebt == 0) || totalLiquidity != 0
  {
    if totalStableDebt == 0 && totalVariableDebt == 0 then 0
    else RayDiv(totalStableDebt + totalVariableDebt, totalLiquidity)
  }

  /** A two-slope curve with its kink at the optimal utilization. */
  function Kinked(base: int, slope1: int, slope2: int, optimal: int, utilization: int): int
    requires 0 < optimal < RAY
  {
    if utilization > optimal then base + slope1 + RayMul(slope2, RayDiv(utilization - optimal, RAY - optimal))
    else base + RayMul(slope1, RayDiv(utilization, optimal))
  }

  function VariableRate(p: ReserveParams, utilization: int): int {
    Kinked(p.baseVariableBorrowRate, p.variableRateSlope1, p.variableRateSlope2, p.optimalUtilizationRate, utilization)
  }

  function StableRate(p: ReserveParams, marketStableRate: int, utilization: int): int {
    Kinked(marketStableRate, p.stableRateSlope1, p.stableRateSlope2, p.optimalUtilizationRate, utilization)
  }

  function OverallBorrowRate(totalStableDebt: int, totalVariableDebt: int, variableRate: int,
                             averageStableRate: int): int
  {
    if totalStableDebt + totalVariableDebt == 0 then 0
    else
      RayDiv(RayMul(WadToRay(totalVariableDebt), variableRate) + RayMul(WadToRay(totalStableDebt), averageStableRate),
             WadToRay(totalStableDebt + totalVariableDebt))
  }

  function LiquidityRate(p: ReserveParams, overallRate: int, utilization: int): int {
    PercentMul(RayMul(overallRate, utilization), PERCENTAGE_FACTOR - p.reserveFactor)
  }

  function RatesFor(p: ReserveParams, marketStableRate: int, utilization: int,
                    totalStableDebt: int, totalVariableDebt: int, averageStableRate: int): InterestRates
  {
    var variableRate := VariableRate(p, utilization);
    var overall := OverallBorrowRate(totalStableDebt, totalVariableDebt, variableRate, averageStableRate);
    InterestRates(LiquidityRate(p, overall, utilization), StableRate(p, marketStableRate, utilization), variableRate)
  }

  // ---------- The original's computation ----------

  method CalcExpectedOverallBorrowRate(totalStableDebt: int, totalVariableDebt: int,
                                       currentVariableBorrowRate: int, currentAverageStableBorrowRate: int)
    returns (overallBorrowRate: int)
    ensures overallBorrowRate == OverallBorrowRate(totalStableDebt, totalVariableDebt, currentVariableBorrowRate,
                                                   currentAverageStableBorrowRate)
    ensures && totalStableDebt >= 0 && totalVariableDebt >= 0
            && currentVariableBorrowRate >= 0 && currentAverageStableBorrowRate >= 0 ==>
              Near(2 * ((totalStableDebt + totalVariableDebt) * overallBorrowRate),
                   2 * (totalVariableDebt * currentVariableBorrowRate
                        + totalStableDebt * currentAverageStableBorrowRate),
                   2 * WAD + (totalStableDebt + totalVariableDebt))
  {
    hide RayMul, RayDiv, Near;
    if totalStableDebt >= 0 && totalVariableDebt >= 0 && currentVariableBorrowRate >= 0
        && currentAverageStableBorrowRate >= 0 {
      OverallTimesDebt(totalStableDebt, totalVariableDebt, currentVariableBorrowRate, currentAverageStableBorrowRate);
    }
    var totalBorrows := totalStableDebt + totalVariableDebt;
    if totalBorrows == 0 {
      return 0;
    }
    var weightedVariableRate := RayMul(WadToRay(totalVariableDebt), currentVariableBorrowRate);
    var weightedStableRate := RayMul(WadToRay(totalStableDebt), currentAverageStableBorrowRate);
    overallBorrowRate := RayDiv(weightedVariableRate + weightedStableRate, WadToRay(totalBorrows));
  }

  /** Starts from the base rates and reassigns both on either side of the kink. */
  method CalcExpectedInterestRates(p: ReserveParams, marketStableRate: int, utilizationRate: int,
                                   totalStableDebt: int, totalVariableDebt: int, averageStableBorrowRate: int)
    returns (rates: InterestRates)
    ensures rates == RatesFor(p, marketStableRate, utilizationRate, totalStableDebt, totalVariableDebt,
                              averageStableBorrowRate)
  {
    var stableBorrowRate := marketStableRate;
    var variableBorrowRate := p.baseVariableBorrowRate;
    var optimalRate := p.optimalUtilizationRate;
    var excessRate := RAY - optimalRate;
    if utilizationRate > optimalRate {
      var excessUtilizationRateRatio := RayDiv(utilizationRate - optimalRate, excessRate);
      stableBorrowRate := stableBorrowRate + p.stableRateSlope1
          + RayMul(p.stableRateSlope2, excessUtilizationRateRatio);
      variableBorrowRate := variableBorrowRate + p.variableRateSlope1
          + RayMul(p.variableRateSlope2, excessUtilizationRateRatio);
    } else {
      stableBorrowRate := stableBorrowRate + RayMul(p.stableRateSlope1, RayDiv(utilizationRate, optimalRate));
      RayMulCommutes(RayDiv(utilizationRate, optimalRate), p.variableRateSlope1);
      variableBorrowRate := variableBorrowRate + RayMul(RayDiv(utilizationRate, optimalRate), p.variableRateSlope1);
    }
    hide RayMul, RayDiv, PercentMul;
    var expectedOverallRate := CalcExpectedOverallBorrowRate(totalStableDebt, totalVariableDebt, variableBorrowRate,
                                                             averageStableBorrowRate);
    var liquidityRate := PercentMul(RayMul(expectedOverallRate, utilizationRate), PERCENTAGE_FACTOR - p.reserveFactor);
    rates := InterestRates(liquidityRate, stableBorrowRate, variableBorrowRate);
  }

  // ---------- The curve ----------

  /** How far utilization has moved along its side of the kink, in rays. */
  lemma KinkRatio(optimal: int, utilization: int)
    requires 0 < optimal < RAY && 0 <= utilization
    ensures utilization <= optimal ==> 0 <= RayDiv(utilization, optimal) <= RAY
    ensures utilization > optimal ==> 0 <= RayDiv(utilization - optimal, RAY - optimal)
    ensures optimal < utilization <= RAY ==> RayDiv(utilization - optimal, RAY - optimal) <= RAY
  {
    hide RayDiv, IsRounded;
    if utilization <= optimal {
      RayDivAtMostRay(utilization, optimal);
    } else {
      RayDivRounds(utilization - optimal, RAY - optimal);
      if utilization <= RAY {
        RayDivAtMostRay(utilization - optimal, RAY - optimal);
      }
    }
  }

  /** The curve rises with utilization on both sides of the kink and across it. */
  lemma KinkedMono(base: int, slope1: int, slope2: int, optimal: int, u1: int, u2: int)
    requires 0 < optimal < RAY && 0 <= slope1 && 0 <= slope2 && 0 <= u1 <= u2
    ensures Kinked(base, slope1, slope2, optimal, u1) <= Kinked(base, slope1, slope2, optimal, u2)
  {
    hide RayDiv, RayMul, IsRounded;
    KinkRatio(optimal, u1);
    KinkRatio(optimal, u2);
    if u2 <= optimal {
      RayDivMono(u1, u2, optimal);
      RayMulMono(RayDiv(u1, optimal), RayDiv(u2, optimal), slope1);
    } else if u1 > optimal {
      RayDivMono(u1 - optimal, u2 - optimal, RAY - optimal);
      RayMulMono(RayDiv(u1 - optimal, RAY - optimal), RayDiv(u2 - optimal, RAY - optimal), slope2);
    } else {
      RayMulMono(RayDiv(u1, optimal), RAY, slope1);
      RayMulUnit(slope1);
      RayMulRounds(slope2, RayDiv(u2 - optimal, RAY - optimal));
    }
  }

  /** The curve meets its corner points exactly. */
  lemma KinkedCorners(base: int, slope1: int, slope2: int, optimal: int)
    requires 0 < optimal < RAY && 0 <= slope1 && 0 <= slope2
    ensures Kinked(base, slope1, slope2, optimal, 0) == base
    ensures Kinked(base, slope1, slope2, optimal, optimal) == base + slope1
    ensures Kinked(base, slope1, slope2, optimal, RAY) == base + slope1 + slope2
  {
    hide RayDiv, IsRounded;
    RayDivZero(optimal);
    RayDivSelf(optimal);
    RayDivSelf(RAY - optimal);
    RayMulUnit(slope1);
    RayMulUnit(slope2);
  }

  /** On either side of the kink the curve is a straight line through its corners: the part of the slope
      is the distance travelled over the whole distance, up to the rounding of that ratio and of its
      product with the slope. */
  lemma KinkedLinear(base: int, slope1: int, slope2: int, optimal: int, utilization: int)
    requires 0 < optimal < RAY && 0 <= slope1 && 0 <= slope2 && 0 <= utilization
    ensures utilization <= optimal ==>
              var part := Kinked(base, slope1, slope2, optimal, utilization) - base;
              Near(2 * RAY * (part * optimal), 2 * RAY * (slope1 * utilization), (RAY + slope1) * optimal)
    ensures utilization > optimal ==>
              var part, rest := Kinked(base, slope1, slope2, optimal, utilization) - base - slope1, RAY - optimal;
              Near(2 * RAY * (part * rest), 2 * RAY * (slope2 * (utilization - optimal)), (RAY + slope2) * rest)
  {
    hide RayDiv, RayMul, IsRounded, Near;
    if utilization <= optimal {
      RayDivRounds(utilization, optimal);
      RayMulRounds(slope1, RayDiv(utilization, optimal));
      PartArithmetic(slope1, utilization, optimal, RayDiv(utilization, optimal),
                     RayMul(slope1, RayDiv(utilization, optimal)));
    } else {
      var rest, distance := RAY - optimal, utilization - optimal;
      RayDivRounds(distance, rest);
      RayMulRounds(slope2, RayDiv(distance, rest));
      PartArithmetic(slope2, distance, rest, RayDiv(distance, rest), RayMul(slope2, RayDiv(distance, rest)));
    }
  }

  lemma PartArithmetic(slope: int, distance: int, whole: int, ratio: int, part: int)
    requires slope >= 0 && whole > 0
    requires IsRounded(distance * RAY, whole, ratio) && IsRounded(slope * ratio, RAY, part)
    ensures Near(2 * RAY * (part * whole), 2 * RAY * (slope * distance), (RAY + slope) * whole)
  {
    GrossNear(slope * ratio, part, whole);
    UtilizedNear(distance, slope, ratio, whole);
    hide IsRounded;
    assert (RAY + slope) * whole == RAY * whole + whole * slope;
    assert distance * slope == slope * distance;
  }

  /** Up to full utilization the curve stays between its end points. */
  lemma KinkedBounds(base: int, slope1: int, slope2: int, optimal: int, utilization: int)
    requires 0 < optimal < RAY && 0 <= slope1 && 0 <= slope2 && 0 <= utilization
    ensures base <= Kinked(base, slope1, slope2, optimal, utilization)
    ensures utilization <= optimal ==> Kinked(base, slope1, slope2, optimal, utilization) <= base + slope1
    ensures utilization >= optimal ==> Kinked(base, slope1, slope2, optimal, utilization) >= base + slope1
    ensures utilization <= RAY ==> Kinked(base, slope1, slope2, optimal, utilization) <= base + slope1 + slope2
  {
    KinkedCorners(base, slope1, slope2, optimal);
    hide Kinked;
    KinkedMono(base, slope1, slope2, optimal, 0, utilization);
    if utilization <= optimal {
      KinkedMono(base, slope1, slope2, optimal, utilization, optimal);
    } else {
      KinkedMono(base, slope1, slope2, optimal, optimal, utilization);
    }
    if utilization <= RAY {
      KinkedMono(base, slope1, slope2, optimal, utilization, RAY);
    }
  }

  /** Both borrow rates rise with utilization and stay within their configured bounds. */
  lemma BorrowRatesFollowUtilization(p: ReserveParams, market: int, u1: int, u2: int)
    requires 0 <= u1 <= u2
    ensures VariableRate(p, u1) <= VariableRate(p, u2)
    ensures StableRate(p, market, u1) <= StableRate(p, market, u2)
    ensures p.baseVariableBorrowRate <= VariableRate(p, u1)
    ensures market <= StableRate(p, market, u1)
    ensures u1 <= RAY ==>
              && VariableRate(p, u1) <= p.baseVariableBorrowRate + p.variableRateSlope1 + p.variableRateSlope2
              && StableRate(p, market, u1) <= market + p.stableRateSlope1 + p.stableRateSlope2
    ensures VariableRate(p, p.optimalUtilizationRate) == p.baseVariableBorrowRate + p.variableRateSlope1
    ensures StableRate(p, market, p.optimalUtilizationRate) == market + p.stableRateSlope1
  {
    hide Kinked;
    var o := p.optimalUtilizationRate;
    KinkedMono(p.baseVariableBorrowRate, p.variableRateSlope1, p.variableRateSlope2, o, u1, u2);
    KinkedMono(market, p.stableRateSlope1, p.stableRateSlope2, o, u1, u2);
    KinkedBounds(p.baseVariableBorrowRate, p.variableRateSlope1, p.variableRateSlope2, o, u1);
    KinkedBounds(market, p.stableRateSlope1, p.stableRateSlope2, o, u1);
    KinkedCorners(p.baseVariableBorrowRate, p.variableRateSlope1, p.variableRateSlope2, o);
    KinkedCorners(market, p.stableRateSlope1, p.stableRateSlope2, o);
  }

  // ---------- Utilization ----------

  /** Utilization is monotone in the ratio of debt to liquidity. */
  lemma UtilizationMono(s1: int, v1: int, l1: int, s2: int, v2: int, l2: int)
    requires 0 <= s1 && 0 <= v1 && 0 <= s2 && 0 <= v2
    requires s1 + v1 > 0 ==> l1 > 0
    requires s2 + v2 > 0 ==> l2 > 0
    requires s1 + v1 > 0 ==> s2 + v2 > 0 && (s1 + v1) * l2 <= (s2 + v2) * l1
    ensures 0 <= UtilizationRate(s1, v1, l1) <= UtilizationRate(s2, v2, l2)
  {
    hide RayDiv, IsRounded;
    if s1 + v1 > 0 {
      RayDivRatioMono(s1 + v1, l1, s2 + v2, l2);
    } else if s2 + v2 > 0 {
      RayDivRounds(s2 + v2, l2);
    }
  }

  lemma UtilizationRounds(s: int, v: int, l: int)
    requires 0 <= s && 0 <= v && 0 < l
    ensures UtilizationRate(s, v, l) >= 0 && IsRounded((s + v) * RAY, l, UtilizationRate(s, v, l))
  {
    hide RayDiv;
    if s + v > 0 {
      RayDivRounds(s + v, l);
    }
  }

  /** When liquidity covers the debt, utilization is at most one ray. */
  lemma UtilizationAtMostRay(s: int, v: int, l: int)
    requires 0 <= s && 0 <= v && s + v <= l
    ensures 0 <= UtilizationRate(s, v, l) <= RAY
  {
    hide RayDiv, IsRounded;
    if s + v > 0 {
      RayDivAtMostRay(s + v, l);
    }
  }

  // ---------- The overall rate ----------

  lemma OverallMono(s: int, v: int, rate1: int, rate2: int, avg: int)
    requires 0 <= s && 0 <= v && 0 <= rate1 <= rate2 && 0 <= avg
    ensures 0 <= OverallBorrowRate(s, v, rate1, avg) <= OverallBorrowRate(s, v, rate2, avg)
  {
    hide RayDiv, RayMul, IsRounded;
    if s + v > 0 {
      RayMulMono(rate1, rate2, WadToRay(v));
      RayMulRounds(WadToRay(v), rate1);
      RayMulRounds(WadToRay(s), avg);
      RayDivMono(RayMul(WadToRay(v), rate1) + RayMul(WadToRay(s), avg),
                 RayMul(WadToRay(v), rate2) + RayMul(WadToRay(s), avg), WadToRay(s + v));
    }
  }

  /** p is e within d. */
  predicate Near(p: int, e: int, d: int) {
    e - d <= p <= e + d
  }

  /** The overall rate times the whole debt is what the two kinds of borrowers pay, within one
      wad for the two weighted products and half a unit per unit of debt. */
  lemma OverallTimesDebt(s: int, v: int, rate: int, avg: int)
    requires 0 <= s && 0 <= v && 0 <= rate && 0 <= avg
    ensures Near(2 * ((s + v) * OverallBorrowRate(s, v, rate, avg)), 2 * (v * rate + s * avg), 2 * WAD + (s + v))
  {
    hide RayMul, RayDiv, IsRounded, Near;
    var t := s + v;
    if t == 0 {
      NothingOwed(rate, avg);
    } else {
      var wv, ws := RayMul(WadToRay(v), rate), RayMul(WadToRay(s), avg);
      RayMulRounds(WadToRay(v), rate);
      RayMulRounds(WadToRay(s), avg);
      RayDivRounds(wv + ws, WadToRay(t));
      WeightedProduct(v, rate, wv);
      WeightedProduct(s, avg, ws);
      WeightedQuotient(t, RayDiv(wv + ws, WadToRay(t)), wv + ws);
      OverallArithmetic(t, t * RayDiv(wv + ws, WadToRay(t)), wv, ws, v * rate, s * avg);
    }
  }

  lemma NothingOwed(rate: int, avg: int)
    ensures Near(2 * ((0 + 0) * OverallBorrowRate(0, 0, rate, avg)), 2 * (0 * rate + 0 * avg), 2 * WAD + (0 + 0))
  {
    hide OverallBorrowRate;
  }

  /** A product weighted by a debt in rays, against the product itself: the weights carry
      WAD_RAY_RATIO and the ray product divides by one ray. */
  lemma WeightedProduct(a: int, b: int, p: int)
    requires IsRounded(WadToRay(a) * b, RAY, p)
    ensures Near(2 * RAY * p, 2 * WAD_RAY_RATIO * (a * b), RAY)
  {
    WadProduct(a, b);
  }

  lemma WeightedQuotient(t: int, o: int, n: int)
    requires IsRounded(n * RAY, WadToRay(t), o)
    ensures Near(2 * WAD_RAY_RATIO * (t * o), 2 * RAY * n, WAD_RAY_RATIO * t)
  {
    WadProduct(t, o);
  }

  lemma OverallArithmetic(t: int, to: int, wv: int, ws: int, vr: int, sa: int)
    requires Near(2 * RAY * wv, 2 * WAD_RAY_RATIO * vr, RAY) && Near(2 * RAY * ws, 2 * WAD_RAY_RATIO * sa, RAY)
    requires Near(2 * WAD_RAY_RATIO * to, 2 * RAY * (wv + ws), WAD_RAY_RATIO * t)
    ensures Near(2 * to, 2 * (vr + sa), 2 * WAD + t)
  {
  }

  lemma WadProduct(a: int, b: int)
    ensures WadToRay(a) * b == WAD_RAY_RATIO * (a * b) == b * WadToRay(a)
  {
  }

  lemma WeightedBetween(s: int, v: int, rate: int, avg: int, lo: int, hi: int)
    requires 0 <= s && 0 <= v && lo <= rate <= hi && lo <= avg <= hi
    ensures (s + v) * lo <= v * rate + s * avg <= (s + v) * hi
  {
    MulMono(lo, rate, v);
    MulMono(rate, hi, v);
    MulMono(lo, avg, s);
    MulMono(avg, hi, s);
  }

  /** The overall rate leaves the interval of the two rates by at most 1/2 + WAD / debt; from one
      wad of debt on, by at most one unit. */
  lemma OverallBetweenRates(s: int, v: int, rate: int, avg: int, lo: int, hi: int)
    requires 0 <= s && 0 <= v && s + v > 0 && 0 <= lo
    requires lo <= rate <= hi && lo <= avg <= hi
    ensures var t, o := s + v, OverallBorrowRate(s, v, rate, avg);
            && 2 * (t * o) <= 2 * (t * hi) + 2 * WAD + t
            && 2 * (t * o) >= 2 * (t * lo) - 2 * WAD - t
            && (t >= WAD ==> lo - 1 <= o <= hi + 1)
  {
    OverallTimesDebt(s, v, rate, avg);
    WeightedBetween(s, v, rate, avg, lo, hi);
    hide OverallBorrowRate;
    WithinOne(s + v, OverallBorrowRate(s, v, rate, avg), lo, hi, v * rate + s * avg);
  }

  lemma WithinOne(t: int, o: int, lo: int, hi: int, paid: int)
    requires t > 0 && Near(2 * (t * o), 2 * paid, 2 * WAD + t) && t * lo <= paid <= t * hi
    ensures 2 * (t * o) <= 2 * (t * hi) + 2 * WAD + t
    ensures 2 * (t * o) >= 2 * (t * lo) - 2 * WAD - t
    ensures t >= WAD ==> lo - 1 <= o <= hi + 1
  {
    if t >= WAD {
      assert (hi + 2) * t == t * hi + 2 * t;
      assert (lo - 2) * t == t * lo - 2 * t;
      MulCancel(o, hi + 2, t);
      MulCancel(lo - 2, o, t);
    }
  }

  // ---------- Interest is conserved ----------

  lemma PercentMulUnder(a: int, percent: int)
    requires 0 <= a && 0 <= percent <= PERCENTAGE_FACTOR
    ensures 0 <= PercentMul(a, percent) <= a
    ensures IsRounded(a * percent, PERCENTAGE_FACTOR, PercentMul(a, percent))
  {
    MulMono(percent, PERCENTAGE_FACTOR, a);
    assert 0 <= a * percent <= a * PERCENTAGE_FACTOR;
  }

  /** Depositors never earn a higher rate than borrowers pay while utilization is at most one ray. */
  lemma LiquidityRateUnderOverall(p: ReserveParams, overall: int, utilization: int)
    requires 0 <= overall && 0 <= utilization <= RAY
    ensures 0 <= LiquidityRate(p, overall, utilization) <= overall
  {
    hide RayMul, PercentMul, IsRounded;
    RayMulRounds(overall, utilization);
    RayMulMono(utilization, RAY, overall);
    RayMulUnit(overall);
    PercentMulUnder(RayMul(overall, utilization), PERCENTAGE_FACTOR - p.reserveFactor);
  }

  lemma LiquidityRateMono(p: ReserveParams, o1: int, u1: int, o2: int, u2: int)
    requires 0 <= o1 <= o2 && 0 <= u1 <= u2
    ensures 0 <= LiquidityRate(p, o1, u1) <= LiquidityRate(p, o2, u2)
  {
    RayMulMono(o1, o2, u1);
    RayMulMono(u1, u2, o2);
    RayMulRounds(o1, u1);
    hide RayMul, IsRounded;
    var k := PERCENTAGE_FACTOR - p.reserveFactor;
    MulMono(RayMul(o1, u1), RayMul(o2, u2), k);
    assert RayMul(o1, u1) * k >= 0;
  }

  /** Rounding dust when a rate is earned on all liquidity, at a scale of two rays. */
  function EarningsDust(totalDebt: int, totalLiquidity: int, overall: int): int {
    2 * RAY * WAD + RAY * (totalDebt + totalLiquidity) + totalLiquidity * overall
  }

  /** Before the reserve factor, what the liquidity earns is what the borrowers pay. */
  lemma EarningsMatchPayments(s: int, v: int, l: int, rate: int, avg: int)
    requires 0 <= s && 0 <= v && 0 <= rate && 0 <= avg && l > 0
    ensures var o := OverallBorrowRate(s, v, rate, avg);
            var gross := RayMul(o, UtilizationRate(s, v, l));
            && o >= 0 && gross >= 0
            && Near(2 * RAY * (gross * l), 2 * RAY * (v * rate + s * avg), EarningsDust(s + v, l, o))
  {
    var t, o, u := s + v, OverallBorrowRate(s, v, rate, avg), UtilizationRate(s, v, l);
    OverallTimesDebt(s, v, rate, avg);
    OverallMono(s, v, rate, rate, avg);
    UtilizationRounds(s, v, l);
    RayMulRounds(o, u);
    hide RayMul, RayDiv, OverallBorrowRate, UtilizationRate;
    EarningsArithmetic(t, o, u, l, RayMul(o, u), v * rate + s * avg);
  }

  lemma EarningsArithmetic(t: int, o: int, u: int, l: int, gross: int, paid: int)
    requires o >= 0 && l > 0
    requires IsRounded(t * RAY, l, u) && IsRounded(o * u, RAY, gross)
    requires Near(2 * (t * o), 2 * paid, 2 * WAD + t)
    ensures Near(2 * RAY * (gross * l), 2 * RAY * paid, EarningsDust(t, l, o))
  {
    GrossNear(o * u, gross, l);
    UtilizedNear(t, o, u, l);
    hide IsRounded;
    ChainNear(gross * l, (o * u) * l, t * o, paid, t, l, l * o);
  }

  lemma GrossNear(x: int, gross: int, l: int)
    requires l > 0 && IsRounded(x, RAY, gross)
    ensures Near(2 * RAY * (gross * l), 2 * (x * l), RAY * l)
  {
    ScaleNear(2 * RAY * gross, 2 * x, RAY, l);
    assert (2 * RAY * gross) * l == 2 * RAY * (gross * l);
    assert (2 * x) * l == 2 * (x * l);
  }

  lemma RotateProduct(a: int, b: int, c: int)
    ensures (a * b) * c == (c * a) * b
  {
  }

  lemma ScaledProducts(x: int, t: int, o: int)
    ensures (2 * x) * o == 2 * (x * o)
    ensures (2 * RAY * t) * o == 2 * RAY * (t * o)
  {
  }

  lemma UtilizedNear(t: int, o: int, u: int, l: int)
    requires o >= 0 && IsRounded(t * RAY, l, u)
    ensures Near(2 * ((o * u) * l), 2 * RAY * (t * o), l * o)
  {
    ScaleNear(2 * (u * l), 2 * RAY * t, l, o);
    RotateProduct(u, l, o);
    ScaledProducts(u * l, t, o);
  }

  lemma ChainNear(a: int, b: int, c: int, paid: int, t: int, l: int, lo: int)
    requires Near(2 * RAY * a, 2 * b, RAY * l)
    requires Near(2 * b, 2 * RAY * c, lo)
    requires Near(2 * c, 2 * paid, 2 * WAD + t)
    ensures Near(2 * RAY * a, 2 * RAY * paid, 2 * RAY * WAD + RAY * (t + l) + lo)
  {
  }

  lemma ScaleNear(p: int, e: int, d: int, k: int)
    requires k >= 0 && Near(p, e, d)
    ensures Near(p * k, e * k, d * k)
  {
    MulMono(e - d, p, k);
    MulMono(p, e + d, k);
  }

  /** Depositors are never promised more than borrowers pay, within dust. */
  lemma PromisedAtMostPaid(p: ReserveParams, s: int, v: int, l: int, rate: int, avg: int)
    requires 0 <= s && 0 <= v && 0 <= rate && 0 <= avg && l > 0
    ensures var o := OverallBorrowRate(s, v, rate, avg);
            2 * RAY * (LiquidityRate(p, o, UtilizationRate(s, v, l)) * l)
            <= 2 * RAY * (v * rate + s * avg) + EarningsDust(s + v, l, o)
  {
    EarningsMatchPayments(s, v, l, rate, avg);
    var gross := RayMul(OverallBorrowRate(s, v, rate, avg), UtilizationRate(s, v, l));
    var share := PERCENTAGE_FACTOR - p.reserveFactor;
    PercentMulUnder(gross, share);
    hide RayMul, RayDiv, PercentMul, OverallBorrowRate, UtilizationRate, EarningsDust;
    MulMono(PercentMul(gross, share), gross, l);
  }

  /** Interest is conserved: of what borrowers pay, depositors get the share left by the reserve
      factor, within dust. */
  lemma DepositorsShare(p: ReserveParams, s: int, v: int, l: int, rate: int, avg: int)
    requires 0 <= s && 0 <= v && 0 <= rate && 0 <= avg && l > 0
    ensures var o := OverallBorrowRate(s, v, rate, avg);
            var lr := LiquidityRate(p, o, UtilizationRate(s, v, l));
            var share := PERCENTAGE_FACTOR - p.reserveFactor;
            Near(PERCENTAGE_FACTOR * (2 * RAY * (lr * l)), share * (2 * RAY * (v * rate + s * avg)),
                 share * EarningsDust(s + v, l, o) + PERCENTAGE_FACTOR * RAY * l)
  {
    EarningsMatchPayments(s, v, l, rate, avg);
    var o := OverallBorrowRate(s, v, rate, avg);
    var gross := RayMul(o, UtilizationRate(s, v, l));
    var share := PERCENTAGE_FACTOR - p.reserveFactor;
    PercentMulUnder(gross, share);
    hide RayMul, RayDiv, PercentMul, OverallBorrowRate, UtilizationRate, EarningsDust;
    var lr := PercentMul(gross, share);
    assert lr == LiquidityRate(p, o, UtilizationRate(s, v, l));
    ShareArithmetic(lr, gross, share, l, 2 * RAY * (v * rate + s * avg), EarningsDust(s + v, l, o));
  }

  lemma ShareArithmetic(lr: int, gross: int, share: int, l: int, paid: int, dust: int)
    requires l > 0 && share >= 0
    requires IsRounded(gross * share, PERCENTAGE_FACTOR, lr)
    requires Near(2 * RAY * (gross * l), paid, dust)
    ensures Near(PERCENTAGE_FACTOR * (2 * RAY * (lr * l)), share * paid, share * dust + PERCENTAGE_FACTOR * RAY * l)
  {
    assert Near(PERCENTAGE_FACTOR * (2 * RAY * (lr * l)), share * (2 * RAY * (gross * l)),
                PERCENTAGE_FACTOR * RAY * l) by {
      ScaleNear(2 * PERCENTAGE_FACTOR * lr, 2 * (gross * share), PERCENTAGE_FACTOR, l);
      assert (2 * PERCENTAGE_FACTOR * lr) * l == 2 * PERCENTAGE_FACTOR * (lr * l);
      assert (2 * (gross * share)) * l == 2 * (share * (gross * l));
      assert share * (2 * RAY * (gross * l)) == 2 * RAY * (share * (gross * l));
    }
    ScaleNear(2 * RAY * (gross * l), paid, dust, share);
  }
}
