/** Indexes, normalized balances and weighted stable rates
    (test-suites/test-palmy/helpers/utils/calculations.ts, from line 1078 on). */
module Balances {
  import opened FixedPoint
  import opened Interest
  import opened Records

  // ---------- Indexes ----------

  /** The stored liquidity index: nothing to compound while utilization is zero. */
  function LiquidityIndex(r: Reserve, timestamp: int): int {
    if r.utilizationRate == 0 then r.liquidityIndex
    else RayMul(LinearInterest(r.liquidityRate, timestamp, r.lastUpdateTimestamp), r.liquidityIndex)
  }

  /** The stored debt index: nothing to compound without variable debt. */
  function VariableBorrowIndex(r: Reserve, timestamp: int): int {
    if r.totalVariableDebt == 0 then r.variableBorrowIndex
    else RayMul(CompoundedInterest(r.variableBorrowRate, timestamp, r.lastUpdateTimestamp), r.variableBorrowIndex)
  }

  /** The index that values deposits: its early-out looks at the rate instead. */
  function NormalizedIncome(r: Reserve, timestamp: int): int {
    if r.liquidityRate == 0 then r.liquidityIndex
    else RayMul(LinearInterest(r.liquidityRate, timestamp, r.lastUpdateTimestamp), r.liquidityIndex)
  }

  /** The index that values variable debt: its early-out looks at the rate instead. */
  function NormalizedDebt(variableBorrowRate: int, variableBorrowIndex: int, lastUpdateTimestamp: int,
                          timestamp: int): int
  {
    if variableBorrowRate == 0 then variableBorrowIndex
    else RayMul(CompoundedInterest(variableBorrowRate, timestamp, lastUpdateTimestamp), variableBorrowIndex)
  }

  // ---------- Balances ----------

  function ScaledLTokenBalance(u: User, index: int, amountAdded: int, amountTaken: int): int
    requires index != 0
  {
    u.scaledLTokenBalance + RayDiv(amountAdded, index) - RayDiv(amountTaken, index)
  }

  function LTokenBalance(r: Reserve, u: User, timestamp: int): int {
    RayMul(u.scaledLTokenBalance, NormalizedIncome(r, timestamp))
  }

  function VariableDebtBalance(r: Reserve, u: User, timestamp: int): int {
    RayMul(u.scaledVariableDebt, NormalizedDebt(r.variableBorrowRate, r.variableBorrowIndex, r.lastUpdateTimestamp,
                                                timestamp))
  }

  function StableDebtBalance(principal: int, rate: int, lastUpdated: int, timestamp: int): int {
    if rate == 0 || timestamp == lastUpdated || lastUpdated == 0 then principal
    else RayMul(principal, CompoundedInterest(rate, timestamp, lastUpdated))
  }

  function UserStableDebt(u: User, timestamp: int): int {
    StableDebtBalance(u.principalStableDebt, u.stableBorrowRate, u.stableRateLastUpdated, timestamp)
  }

  /** The reserve's stable debt has no early-outs. */
  function TotalStableDebt(principal: int, averageRate: int, lastUpdated: int, timestamp: int): int {
    RayMul(CompoundedInterest(averageRate, timestamp, lastUpdated), principal)
  }

  // ---------- Weighted stable rates ----------

  function AverageStableRate(averageBefore: int, totalBefore: int, amountChanged: int, rate: int): int {
    if totalBefore + amountChanged == 0 then 0
    else TruncDiv(averageBefore * totalBefore + rate * amountChanged, totalBefore + amountChanged)
  }

  /** The rebalance variant adds a total in wads to a change in rays, as the original does. */
  function AverageStableRateRebalance(averageBefore: int, totalBefore: int, amountChanged: int, rate: int): int {
    if totalBefore + WadToRay(amountChanged) == 0 then 0
    else RayDiv(RayMul(averageBefore, totalBefore) + RayMul(rate, WadToRay(amountChanged)),
                totalBefore + WadToRay(amountChanged))
  }

  function UserStableRate(balanceBefore: int, rateBefore: int, amount: int, rateNew: int): int
    requires balanceBefore + amount != 0
  {
    TruncDiv(balanceBefore * rateBefore + amount * rateNew, balanceBefore + amount)
  }

  // ---------- Growth ----------

  lemma LiquidityIndexGrows(r: Reserve, timestamp: int)
    requires r.liquidityIndex >= RAY && r.liquidityRate >= 0 && timestamp >= r.lastUpdateTimestamp
    ensures LiquidityIndex(r, timestamp) >= r.liquidityIndex
    ensures NormalizedIncome(r, timestamp) >= r.liquidityIndex
  {
    hide RayMul, LinearInterest, IsRounded;
    LinearAtLeastOne(r.liquidityRate, timestamp, r.lastUpdateTimestamp);
    RayMulGrows(r.liquidityIndex, LinearInterest(r.liquidityRate, timestamp, r.lastUpdateTimestamp));
  }

  lemma NormalizedDebtGrows(rate: int, index: int, last: int, timestamp: int)
    requires index >= RAY && rate >= 0 && timestamp >= last
    ensures NormalizedDebt(rate, index, last, timestamp) >= index
  {
    hide RayMul, CompoundedInterest, IsRounded;
    CompoundedAtLeastOne(rate, timestamp, last);
    RayMulGrows(index, CompoundedInterest(rate, timestamp, last));
  }

  lemma VariableBorrowIndexGrows(r: Reserve, timestamp: int)
    requires r.variableBorrowIndex >= RAY && r.variableBorrowRate >= 0 && timestamp >= r.lastUpdateTimestamp
    ensures VariableBorrowIndex(r, timestamp) >= r.variableBorrowIndex
  {
    hide RayMul, CompoundedInterest, IsRounded;
    CompoundedAtLeastOne(r.variableBorrowRate, timestamp, r.lastUpdateTimestamp);
    RayMulGrows(r.variableBorrowIndex, CompoundedInterest(r.variableBorrowRate, timestamp, r.lastUpdateTimestamp));
  }

  lemma StableDebtGrows(principal: int, rate: int, last: int, timestamp: int)
    requires principal >= 0 && rate >= 0 && timestamp >= last
    ensures TotalStableDebt(principal, rate, last, timestamp) >= principal
    ensures StableDebtBalance(principal, rate, last, timestamp) >= principal
  {
    hide RayMul, CompoundedInterest, IsRounded;
    CompoundedAtLeastOne(rate, timestamp, last);
    RayMulGrows(principal, CompoundedInterest(rate, timestamp, last));
  }

  /** Accruing interest never makes two stable principals equal: scaling by at least one ray can be
      undone. */
  lemma StableBalanceInjective(p1: int, p2: int, rate: int, last: int, timestamp: int)
    requires p1 >= 0 && p2 >= 0 && rate >= 0 && last <= timestamp
    ensures StableDebtBalance(p1, rate, last, timestamp) == StableDebtBalance(p2, rate, last, timestamp) <==> p1 == p2
  {
    hide RayMul, RayDiv, CompoundedInterest;
    CompoundedAtLeastOne(rate, timestamp, last);
    RoundTrip(p1, CompoundedInterest(rate, timestamp, last));
    RoundTrip(p2, CompoundedInterest(rate, timestamp, last));
  }

  /** Variable debt only grows while a reserve is left alone. */
  lemma VariableDebtMono(r: Reserve, u: User, timestamp1: int, timestamp2: int)
    requires r.variableBorrowIndex >= 0 && r.variableBorrowRate >= 0 && u.scaledVariableDebt >= 0
    requires r.lastUpdateTimestamp <= timestamp1 <= timestamp2
    ensures 0 <= VariableDebtBalance(r, u, timestamp1) <= VariableDebtBalance(r, u, timestamp2)
  {
    hide RayMul, CompoundedInterest;
    var rate, last := r.variableBorrowRate, r.lastUpdateTimestamp;
    CompoundedAtLeastOne(rate, timestamp1, last);
    CompoundedMono(rate, timestamp1, timestamp2, last);
    RayMulMono(CompoundedInterest(rate, timestamp1, last), CompoundedInterest(rate, timestamp2, last),
               r.variableBorrowIndex);
    RayMulMono(NormalizedDebt(rate, r.variableBorrowIndex, last, timestamp1),
               NormalizedDebt(rate, r.variableBorrowIndex, last, timestamp2), u.scaledVariableDebt);
  }

  /** Without elapsed time nothing accrues. */
  lemma NothingAccrues(r: Reserve, principal: int, rate: int, timestamp: int)
    requires r.lastUpdateTimestamp == timestamp && r.liquidityIndex >= 0 && r.variableBorrowIndex >= 0
    requires principal >= 0
    ensures LiquidityIndex(r, timestamp) == NormalizedIncome(r, timestamp) == r.liquidityIndex
    ensures VariableBorrowIndex(r, timestamp) == r.variableBorrowIndex
    ensures NormalizedDebt(r.variableBorrowRate, r.variableBorrowIndex, timestamp, timestamp) == r.variableBorrowIndex
    ensures TotalStableDebt(principal, rate, timestamp, timestamp) == principal
    ensures StableDebtBalance(principal, rate, timestamp, timestamp) == principal
  {
    RayMulUnit(r.liquidityIndex);
    RayMulUnit(r.variableBorrowIndex);
    RayMulUnit(principal);
    assert LinearInterest(r.liquidityRate, timestamp, timestamp) == RAY;
    assert CompoundedInterest(rate, timestamp, timestamp) == RAY;
    hide RayMul, LinearInterest;
  }

  // ---------- What balances are worth ----------

  /** The valuing indexes are the stored ones times the interest factor since, rounded half up, also
      where an early-out skips the factor. */
  lemma IndexesAccrue(r: Reserve, timestamp: int)
    requires r.liquidityIndex >= 0 && r.variableBorrowIndex >= 0 && r.liquidityRate >= 0 && r.variableBorrowRate >= 0
    requires r.lastUpdateTimestamp <= timestamp
    ensures IsRounded(LinearInterest(r.liquidityRate, timestamp, r.lastUpdateTimestamp) * r.liquidityIndex, RAY,
                      NormalizedIncome(r, timestamp))
    ensures IsRounded(CompoundedInterest(r.variableBorrowRate, timestamp, r.lastUpdateTimestamp)
                      * r.variableBorrowIndex, RAY,
                      NormalizedDebt(r.variableBorrowRate, r.variableBorrowIndex, r.lastUpdateTimestamp, timestamp))
  {
    hide RayMul, CompoundedInterest;
    LinearAtLeastOne(r.liquidityRate, timestamp, r.lastUpdateTimestamp);
    CompoundedAtLeastOne(r.variableBorrowRate, timestamp, r.lastUpdateTimestamp);
    RayMulRounds(LinearInterest(r.liquidityRate, timestamp, r.lastUpdateTimestamp), r.liquidityIndex);
    RayMulRounds(CompoundedInterest(r.variableBorrowRate, timestamp, r.lastUpdateTimestamp), r.variableBorrowIndex);
    RayMulUnit(r.liquidityIndex);
    RayMulUnit(r.variableBorrowIndex);
    if r.liquidityRate == 0 {
      LinearTruncates(0, timestamp, r.lastUpdateTimestamp);
      assert LinearInterest(0, timestamp, r.lastUpdateTimestamp) == RAY by {
        assert 0 * (timestamp - r.lastUpdateTimestamp) == 0;
      }
    }
    CompoundedZeroRate(timestamp, r.lastUpdateTimestamp);
    hide IsRounded, LinearInterest;
  }

  /** A scaled balance is worth itself times the valuing index, rounded half up. */
  lemma BalancesWorth(r: Reserve, u: User, timestamp: int)
    requires u.scaledLTokenBalance >= 0 && u.scaledVariableDebt >= 0
    requires r.liquidityIndex >= RAY && r.variableBorrowIndex >= RAY
    requires r.liquidityRate >= 0 && r.variableBorrowRate >= 0
    requires r.lastUpdateTimestamp <= timestamp
    ensures IsRounded(u.scaledLTokenBalance * NormalizedIncome(r, timestamp), RAY, LTokenBalance(r, u, timestamp))
    ensures var index := NormalizedDebt(r.variableBorrowRate, r.variableBorrowIndex, r.lastUpdateTimestamp, timestamp);
            IsRounded(u.scaledVariableDebt * index, RAY, VariableDebtBalance(r, u, timestamp))
  {
    hide RayMul, NormalizedIncome, NormalizedDebt, IsRounded;
    LiquidityIndexGrows(r, timestamp);
    NormalizedDebtGrows(r.variableBorrowRate, r.variableBorrowIndex, r.lastUpdateTimestamp, timestamp);
    RayMulRounds(u.scaledLTokenBalance, NormalizedIncome(r, timestamp));
    RayMulRounds(u.scaledVariableDebt,
                 NormalizedDebt(r.variableBorrowRate, r.variableBorrowIndex, r.lastUpdateTimestamp, timestamp));
  }

  /** Stable debt is the principal times the compounded factor since its own time, rounded half up; a
      user's whose time is 0 does not accrue. */
  lemma StableDebtAccrues(principal: int, rate: int, last: int, timestamp: int)
    requires principal >= 0 && rate >= 0 && last <= timestamp
    ensures IsRounded(CompoundedInterest(rate, timestamp, last) * principal, RAY,
                      TotalStableDebt(principal, rate, last, timestamp))
    ensures StableDebtBalance(principal, rate, last, timestamp)
         == if last == 0 then principal else TotalStableDebt(principal, rate, last, timestamp)
  {
    hide RayMul, CompoundedInterest;
    CompoundedAtLeastOne(rate, timestamp, last);
    CompoundedZeroRate(timestamp, last);
    RayMulRounds(CompoundedInterest(rate, timestamp, last), principal);
    RayMulCommutes(principal, CompoundedInterest(rate, timestamp, last));
    RayMulUnit(principal);
    assert timestamp == last ==> CompoundedInterest(rate, timestamp, last) == RAY by {
      if timestamp == last { NoTimeNoInterest(rate, last); }
    }
    hide IsRounded;
  }

  lemma NoTimeNoInterest(rate: int, timestamp: int)
    ensures CompoundedInterest(rate, timestamp, timestamp) == RAY
  {
  }

  // ---------- The two early-outs of an index agree ----------

  /** Scaling by an index of at least one ray moves it as soon as there is any interest. */
  lemma InterestMovesIndex(extra: int, index: int)
    requires extra >= 0 && index >= RAY
    ensures RayMul(RAY + extra, index) == index <==> extra == 0
  {
    if extra == 0 {
      RayMulUnit(index);
    } else {
      MulMono(RAY, index, extra);
      assert (RAY + extra) * index == RAY * index + extra * index;
      RayMulRounds(RAY + extra, index);
    }
  }

  /** The stored and the valuing deposit index agree unless a reserve at zero utilization still
      carries a liquidity rate that earns a whole unit of the factor. */
  lemma IncomeIndexesAgree(r: Reserve, timestamp: int)
    requires r.liquidityIndex >= RAY && r.liquidityRate >= 0 && timestamp >= r.lastUpdateTimestamp
    ensures LiquidityIndex(r, timestamp) == NormalizedIncome(r, timestamp)
       <==> r.utilizationRate != 0 || r.liquidityRate * (timestamp - r.lastUpdateTimestamp) < ONE_YEAR
  {
    var n := r.liquidityRate * (timestamp - r.lastUpdateTimestamp);
    ProductNonNegative(r.liquidityRate, timestamp - r.lastUpdateTimestamp);
    if r.utilizationRate == 0 && r.liquidityRate != 0 {
      var extra := TruncDiv(n, ONE_YEAR);
      TruncDivFloor(n, ONE_YEAR);
      assert extra == 0 <==> n < ONE_YEAR;
      assert NormalizedIncome(r, timestamp) == RayMul(RAY + extra, r.liquidityIndex);
      hide RayMul, IsRounded, NormalizedIncome;
      InterestMovesIndex(extra, r.liquidityIndex);
    }
  }

  /** The stored and the valuing debt index agree whenever there is variable debt or no rate;
      otherwise a scaled debt within the (then empty) reserve is zero under both. */
  lemma DebtIndexesAgree(r: Reserve, timestamp: int)
    requires r.variableBorrowIndex >= 0 && timestamp >= r.lastUpdateTimestamp
    requires r.totalVariableDebt != 0 || r.variableBorrowRate == 0
    ensures VariableBorrowIndex(r, timestamp)
         == NormalizedDebt(r.variableBorrowRate, r.variableBorrowIndex, r.lastUpdateTimestamp, timestamp)
  {
    if r.variableBorrowRate == 0 {
      CompoundedZeroRate(timestamp, r.lastUpdateTimestamp);
      RayMulUnit(r.variableBorrowIndex);
    }
  }

  // ---------- Index updates over time ----------

  /** Updating the debt index twice instead of once loses at most dust: a unit for the
      roundings, the splitting dust in proportion to the index, and half the second factor. */
  lemma MoreUpdatesKeepDebt(rate: int, index: int, last: int, t1: nat, t2: nat)
    requires rate >= 0 && index >= 0
    ensures var once := NormalizedDebt(rate, index, last, last + t1 + t2);
            var twice := NormalizedDebt(rate, NormalizedDebt(rate, index, last, last + t1), last + t1, last + t1 + t2);
            2 * RAY * (once - twice)
            <= 2 * RAY + index * SplitDust(t1, t2) + CompoundedInterest(rate, last + t1 + t2, last + t1)
  {
    hide CompoundedInterest, SplitDust, RayMul, IsRounded, RatePerSecond;
    CompoundedAtLeastOne(rate, last + t1, last);
    CompoundedAtLeastOne(rate, last + t1 + t2, last + t1);
    CompoundedAtLeastOne(rate, last + t1 + t2, last);
    SplitProduct(rate, t1, t2, last);
    ProductNonNegative(index, SplitDust(t1, t2));
    if rate != 0 {
      TwoUpdates(CompoundedInterest(rate, last + t1, last), CompoundedInterest(rate, last + t1 + t2, last + t1),
                 CompoundedInterest(rate, last + t1 + t2, last), index, SplitDust(t1, t2));
    }
  }

  lemma TwoUpdates(a: int, b: int, c: int, index: int, dust: int)
    requires a >= 0 && b >= 0 && c >= 0 && index >= 0
    requires 2 * (a * b) >= 2 * RAY * c - RAY * dust
    ensures 2 * RAY * (RayMul(c, index) - RayMul(b, RayMul(a, index))) <= 2 * RAY + index * dust + b
  {
    RayMulRounds(a, index);
    RayMulRounds(b, RayMul(a, index));
    RayMulRounds(c, index);
    hide RayMul;
    var mid := RayMul(a, index);
    CarryRounding(a * index, mid, b);
    ProductOfThree(a, b, index);
    ScaleSplit(a * b, c, dust, index);
    UpdatesArithmetic(b * mid, RayMul(b, mid), c * index, RayMul(c, index), (a * b) * index, index * dust, b);
  }

  lemma ProductOfThree(a: int, b: int, c: int)
    ensures (a * c) * b == (a * b) * c
  {
  }

  /** Rounding x / RAY to `mid` before multiplying by b costs at most b / 2. */
  lemma CarryRounding(x: int, mid: int, b: int)
    requires b >= 0 && IsRounded(x, RAY, mid)
    ensures 2 * RAY * (b * mid) >= 2 * (x * b) - RAY * b
  {
    MulMono(2 * x - RAY, 2 * RAY * mid, b);
    assert (2 * x - RAY) * b == 2 * (x * b) - RAY * b;
    assert (2 * RAY * mid) * b == 2 * RAY * (b * mid);
  }

  lemma ScaleSplit(ab: int, c: int, dust: int, index: int)
    requires index >= 0 && 2 * ab >= 2 * RAY * c - RAY * dust
    ensures 2 * (ab * index) >= 2 * RAY * (c * index) - RAY * (index * dust)
  {
    MulMono(2 * RAY * c - RAY * dust, 2 * ab, index);
    assert (2 * RAY * c - RAY * dust) * index == 2 * RAY * (c * index) - RAY * (index * dust);
    assert (2 * ab) * index == 2 * (ab * index);
  }

  lemma UpdatesArithmetic(bm: int, twice: int, ci: int, once: int, abi: int, id: int, b: int)
    requires IsRounded(bm, RAY, twice) && IsRounded(ci, RAY, once)
    requires 2 * RAY * bm >= 2 * abi - RAY * b
    requires 2 * abi >= 2 * RAY * ci - RAY * id
    ensures 2 * RAY * (once - twice) <= 2 * RAY + id + b
  {
  }
}
