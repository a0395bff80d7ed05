/** The two predictions of a deposit balance, by adding the amount and by the new scaled balance
    (test-suites/test-palmy/helpers/utils/calculations.ts), against the tolerance of the scenario
    suite's comparison (test-suites/test-palmy/helpers/actions.ts). */
module Tolerance {
  import opened FixedPoint
  import opened Interest
  import opened Rates
  import opened Records
  import opened Balances
  import opened ReserveSteps
  import opened UserSteps
  import opened Soundness
  import opened Conservation

  /** The tolerance of the scenario suite's comparison. */
  predicate AlmostEqual(expected: int, actual: int) {
    Near(actual, expected, 3)
  }

  /** What adding an amount to a scaled balance is worth. */
  function Recomputed(s: int, amount: int, index: int): int
    requires index != 0
  {
    RayMul(s + RayDiv(amount, index), index)
  }

  // ---------- The exact condition ----------

  /** Up to six rays, and beyond while the excess divides a ray. */
  predicate ToleratedIndex(index: int) {
    index <= 6 * RAY || RAY % (index - 6 * RAY) == 0
  }

  ghost predicate AlwaysTolerated(index: int)
    requires index != 0
  {
    forall s, amount :: s >= 0 && amount >= 0 ==> AlmostEqual(RayMul(s, index) + amount, Recomputed(s, amount, index))
  }

  /** The tolerance holds for every balance and amount exactly for the tolerated indexes. */
  lemma ToleranceIff(index: int)
    requires index > 0
    ensures AlwaysTolerated(index) <==> ToleratedIndex(index)
  {
    hide RayMul, RayDiv, ToleratedIndex, Recomputed;
    if ToleratedIndex(index) {
      forall s, amount | s >= 0 && amount >= 0
        ensures AlmostEqual(RayMul(s, index) + amount, Recomputed(s, amount, index))
      {
        WithinTolerance(s, amount, index);
      }
    } else {
      var s, amount := MissedByFour(index);
      assert !AlmostEqual(RayMul(s, index) + amount, Recomputed(s, amount, index));
    }
  }

  // ---------- Tolerated indexes ----------

  lemma WithinTolerance(s: int, amount: int, index: int)
    requires s >= 0 && amount >= 0 && index > 0 && ToleratedIndex(index)
    ensures AlmostEqual(RayMul(s, index) + amount, Recomputed(s, amount, index))
  {
    RayDivRounds(amount, index);
    hide RayMul, RayDiv, ToleratedIndex;
    var d := RayDiv(amount, index);
    OffsetWithin(d, amount, index);
    RayMulRounds(s, index);
    RayMulRounds(s + d, index);
    AddScaledRounds(s, d, index);
    WithinThree(s * index, d * index, RayMul(s, index), RayMul(s + d, index), amount);
  }

  /** Unscaling misses a tolerated index by at most three rays: an excess k that divides a ray
      divides the miss, which is below 3 RAY + k. */
  lemma OffsetWithin(d: int, amount: int, index: int)
    requires index > 0 && ToleratedIndex(index) && IsRounded(amount * RAY, index, d)
    ensures -3 * RAY <= d * index - amount * RAY <= 3 * RAY
  {
    if index > 6 * RAY {
      var k := index - 6 * RAY;
      var n := RAY / k;
      assert RAY == k * n;
      var x := 6 * (n * d) + d - n * amount;
      MultipleOfExcess(d, amount, k, n);
      assert -(6 * n + 1) * k <= 2 * (x * k) <= (6 * n + 1) * k;
      hide ToleratedIndex, IsRounded;
      HalfMultiple(x, n, k);
    }
  }

  lemma MultipleOfExcess(d: int, amount: int, k: int, n: int)
    requires k * n == RAY
    ensures d * (6 * RAY + k) - amount * RAY == (6 * (n * d) + d - n * amount) * k
    ensures (6 * n + 1) * k == 6 * RAY + k
  {
    assert d * RAY == (n * d) * k;
    assert amount * RAY == (n * amount) * k;
  }

  lemma HalfMultiple(x: int, n: int, k: int)
    requires k > 0 && n >= 0 && -(6 * n + 1) * k <= 2 * (x * k) <= (6 * n + 1) * k
    ensures -3 * (n * k) <= x * k <= 3 * (n * k)
  {
    if x > 3 * n {
      MulMono(6 * n + 2, 2 * x, k);
      assert (6 * n + 2) * k == (6 * n + 1) * k + k;
    } else if x < -3 * n {
      MulMono(2 * x, -(6 * n + 2), k);
      assert -(6 * n + 2) * k == -(6 * n + 1) * k - k;
    } else {
      MulMono(x, 3 * n, k);
      MulMono(-3 * n, x, k);
    }
  }

  lemma WithinThree(si: int, di: int, before: int, after: int, amount: int)
    requires IsRounded(si, RAY, before) && IsRounded(si + di, RAY, after)
    requires -3 * RAY <= di - amount * RAY <= 3 * RAY
    ensures -3 <= after - before - amount <= 3
  {
  }

  // ---------- All other indexes ----------

  lemma RayMulUnique(a: int, b: int, q: int)
    requires a >= 0 && b >= 0 && IsRounded(a * b, RAY, q)
    ensures q == RayMul(a, b)
  {
    hide RayMul, IsRounded;
    RayMulRounds(a, b);
    RoundedUnique(a * b, RAY, q, RayMul(a, b));
  }

  lemma QuotientOfRay(k: int)
    requires k > 0 && RAY % k != 0
    ensures if k > RAY then RAY / k == 0 else k < RAY && RAY / k >= 1
  {
  }

  /** For every other index some balance and amount are missed by four, also when the amount is
      taken out again. */
  lemma MissedByFour(index: int) returns (s: int, amount: int)
    requires index > 0 && !ToleratedIndex(index)
    ensures s >= 0 && 0 <= amount <= 7 * RAY && RayDiv(amount, index) >= 0 && amount <= Recomputed(s, amount, index)
    ensures Abs(Recomputed(s, amount, index) - RayMul(s, index) - amount) == 4
  {
    hide RayMul, RayDiv;
    var k := index - 6 * RAY;
    if k > 2 * RAY {
      s, amount := 1, 4;
      RayDivUnique(4, index, 0);
      RayMulGrows(1, index);
      RayMulMono(8 * RAY, index, 1);
      RayMulUnique(8 * RAY, 1, 8);
      RayMulCommutes(1, index);
    } else {
      var m := RAY / k + 1;
      var e := m * k - RAY;
      assert 0 < e < k && m > 0 by {
        assert RAY == k * (RAY / k) + RAY % k;
        assert m * k == k * (RAY / k) + k;
      }
      QuotientOfRay(k);
      if 2 * e <= k {
        s, amount := MissedAbove(m, k, e);
      } else {
        assert (m - 1) * k == m * k - k;
        s, amount := MissedBelow(m - 1, k, k - e);
      }
    }
  }

  lemma NearestMultiple(d: int, index: int, amount: int, offset: int)
    requires d * index == amount * RAY + offset && -index < 2 * offset <= index
    ensures IsRounded(amount * RAY, index, d)
  {
  }

  /** j copies of d, when one copy is worth 6 RAY d + RAY + e. */
  lemma Copies(d: int, index: int, j: int, e: int, q: int)
    requires d * index == 6 * RAY * d + RAY + e
    requires -RAY <= 2 * ((j - q) * RAY + j * e) < RAY
    ensures IsRounded((j * d) * index, RAY, 6 * (j * d) + q)
  {
    assert (j * d) * index == j * (d * index);
    assert j * (6 * RAY * d + RAY + e) == 6 * RAY * (j * d) + j * RAY + j * e;
  }

  /** The three roundings of a prediction, from their defining inequalities. */
  lemma Predicted(s: int, d: int, amount: int, index: int, before: int, after: int)
    requires s >= 0 && d >= 0 && amount >= 0 && index > 0
    requires IsRounded(amount * RAY, index, d)
    requires IsRounded(s * index, RAY, before) && IsRounded((s + d) * index, RAY, after)
    ensures RayDiv(amount, index) == d && RayMul(s, index) == before && Recomputed(s, amount, index) == after
  {
    hide RayMul, RayDiv, IsRounded;
    RayDivUnique(amount, index, d);
    RayMulUnique(s, index, before);
    RayMulUnique(s + d, index, after);
  }

  /** A scaled amount d whose product with the excess is just above a ray. */
  lemma MissedAbove(d: int, k: int, e: int) returns (s: int, amount: int)
    requires d > 0 && 0 < k <= 2 * RAY && d * k == RAY + e && e > 0 && 2 * e <= k
    ensures var index := 6 * RAY + k;
            && s >= 0 && 0 <= amount <= 7 * RAY && RayDiv(amount, index) >= 0 && amount <= Recomputed(s, amount, index)
            && Recomputed(s, amount, index) - RayMul(s, index) - amount == 4
  {
    hide RayMul, RayDiv, IsRounded, Recomputed;
    AtMostProduct(d, k);
    var index, j := 6 * RAY + k, (HALF_RAY - 1) / e;
    CopiesBelowHalf(HALF_RAY - 1, e);
    assert d * index == 6 * RAY * d + RAY + e;
    s, amount := j * d, 6 * d - 2;
    ProductNonNegative(j, d);
    NextCopy(j, d, e);
    NearestMultiple(d, index, amount, 3 * RAY + e);
    Copies(d, index, j, e, j);
    Copies(d, index, j + 1, e, j + 2);
    Predicted(s, d, amount, index, 6 * s + j, 6 * (s + d) + j + 2);
  }

  /** A scaled amount d whose product with the excess is just below a ray. */
  lemma MissedBelow(d: int, k: int, g: int) returns (s: int, amount: int)
    requires d > 0 && 0 < k < RAY && d * k == RAY - g && g > 0 && 2 * g < k
    ensures var index := 6 * RAY + k;
            && s >= 0 && 0 <= amount <= 7 * RAY && RayDiv(amount, index) >= 0 && amount <= Recomputed(s, amount, index)
            && Recomputed(s, amount, index) - RayMul(s, index) - amount == -4
  {
    hide RayMul, RayDiv, IsRounded, Recomputed;
    AtMostProduct(d, k);
    var index, j := 6 * RAY + k, HALF_RAY / g;
    CopiesBelowHalf(HALF_RAY, g);
    assert d * index == 6 * RAY * d + RAY - g;
    s, amount := j * d, 6 * d + 4;
    MulMono(1, j, d);
    NextCopy(j, d, -g);
    assert j * -g == -(j * g);
    NearestMultiple(d, index, amount, -3 * RAY - g);
    Copies(d, index, j, -g, j);
    Copies(d, index, j + 1, -g, j);
    Predicted(s, d, amount, index, 6 * s + j, 6 * (s + d) + j);
  }

  lemma AtMostProduct(d: int, k: int)
    requires d > 0 && k > 0
    ensures d <= d * k && k <= d * k
  {
    MulMono(1, k, d);
    MulMono(1, d, k);
  }

  lemma CopiesBelowHalf(half: int, e: int)
    requires half >= 0 && e > 0
    ensures half / e >= 0 && (half / e) * e <= half < (half / e) * e + e
    ensures e <= half ==> half / e >= 1
  {
    assert half == e * (half / e) + half % e;
  }

  lemma NextCopy(j: int, d: int, e: int)
    ensures (j + 1) * d == j * d + d && (j + 1) * e == j * e + e
  {
  }

  // ---------- On the user records ----------

  /** `additive` and `recomputed` differ by at most one unit and half an index unit, and are within
      the tolerance for a tolerated index. */
  predicate Agrees(additive: int, recomputed: int, index: int) {
    && Near(2 * RAY * additive, 2 * RAY * recomputed, 2 * RAY + index)
    && (ToleratedIndex(index) ==> AlmostEqual(additive, recomputed))
  }

  lemma AddingAgrees(s: int, amount: int, index: int)
    requires s >= 0 && amount >= 0 && index > 0
    ensures RayDiv(amount, index) >= 0
    ensures Agrees(RayMul(s, index) + amount, Recomputed(s, amount, index), index)
  {
    hide RayMul, RayDiv, ToleratedIndex;
    ScaledAdd(s, amount, index);
    if ToleratedIndex(index) {
      WithinTolerance(s, amount, index);
    }
  }

  lemma TakingAgrees(s: int, amount: int, index: int)
    requires amount >= 0 && index > 0 && s >= RayDiv(amount, index)
    ensures Agrees(RayMul(s, index) - amount, RayMul(s - RayDiv(amount, index), index), index)
  {
    hide RayMul, RayDiv, ToleratedIndex;
    AddingAgrees(s - RayDiv(amount, index), amount, index);
  }

  /** A deposit predicts the balance twice, by adding the amount and by the new scaled balance. The
      two differ by at most one unit and half an index unit, and for a tolerated index by at most
      three units. */
  lemma DepositPredictionsAgree(amount: int, r: Reserve, u: User, tx: int, p: ReserveParams)
    requires Sound(r, tx) && amount >= 0 && u.scaledLTokenBalance >= 0
    ensures Priceable(DepositMoved(amount, r, tx))
    ensures var after := AfterDeposit(amount, r, tx, p);
            && after.liquidityIndex == LiquidityIndex(r, tx) >= RAY
            && var user := UserAfterDeposit(amount, r, after, u, tx);
               var recomputed := RayMul(user.scaledLTokenBalance, after.liquidityIndex);
               Agrees(user.currentLTokenBalance, recomputed, after.liquidityIndex)
  {
    hide RayMul, RayDiv, LiquidityIndex, VariableBorrowIndex, TotalStableDebt, RatesFor, UtilizationRate,
      LTokenBalance, Agrees, Solvent;
    BalanceIsScaled(r, u, tx);
    DepositBalanced(amount, r, tx);
    RepricedSound(DepositMoved(amount, r, tx), tx, p);
    var index := LiquidityIndex(r, tx);
    RayDivZero(index);
    AddingAgrees(u.scaledLTokenBalance, amount, index);
  }

  /** The same for a withdrawal within the balance. */
  lemma WithdrawPredictionsAgree(amount: int, r: Reserve, u: User, tx: int, p: ReserveParams)
    requires Sound(r, tx) && u.scaledLTokenBalance >= 0
    requires var taken := WithdrawAmount(amount, r, u, tx);
             0 <= taken <= r.availableLiquidity && taken <= LTokenBalance(r, u, tx)
    ensures Priceable(WithdrawMoved(WithdrawAmount(amount, r, u, tx), r, tx))
    ensures var after := AfterWithdraw(amount, r, u, tx, p);
            && after.liquidityIndex == LiquidityIndex(r, tx) >= RAY
            && var user := UserAfterWithdraw(amount, r, after, u, tx);
               var recomputed := RayMul(user.scaledLTokenBalance, after.liquidityIndex);
               Agrees(user.currentLTokenBalance, recomputed, after.liquidityIndex)
  {
    hide RayMul, RayDiv, LiquidityIndex, VariableBorrowIndex, TotalStableDebt, RatesFor, UtilizationRate,
      LTokenBalance, Agrees, Solvent;
    BalanceIsScaled(r, u, tx);
    var taken := WithdrawAmount(amount, r, u, tx);
    WithdrawBalanced(taken, r, tx);
    RepricedSound(WithdrawMoved(taken, r, tx), tx, p);
    var index := LiquidityIndex(r, tx);
    RayDivZero(index);
    UnscaleWithin(taken, u.scaledLTokenBalance, index);
    TakingAgrees(u.scaledLTokenBalance, taken, index);
  }

  predicate DepositTolerated(amount: int, r: Reserve, after: Reserve, u: User, tx: int)
    requires after.liquidityIndex != 0
  {
    var user := UserAfterDeposit(amount, r, after, u, tx);
    AlmostEqual(user.currentLTokenBalance, RayMul(user.scaledLTokenBalance, after.liquidityIndex))
  }

  predicate WithdrawalTolerated(amount: int, r: Reserve, after: Reserve, u: User, tx: int)
    requires after.liquidityIndex != 0
  {
    var user := UserAfterWithdraw(amount, r, after, u, tx);
    AlmostEqual(user.currentLTokenBalance, RayMul(user.scaledLTokenBalance, after.liquidityIndex))
  }

  lemma DepositGap(amount: int, r: Reserve, after: Reserve, u: User, tx: int)
    requires Sound(r, tx) && after.liquidityIndex == LiquidityIndex(r, tx)
    ensures after.liquidityIndex >= RAY
    ensures DepositTolerated(amount, r, after, u, tx)
       <==> AlmostEqual(RayMul(u.scaledLTokenBalance, after.liquidityIndex) + amount,
                        Recomputed(u.scaledLTokenBalance, amount, after.liquidityIndex))
  {
    hide RayMul, RayDiv, LiquidityIndex, LTokenBalance, VariableDebtBalance, UserStableDebt;
    BalanceIsScaled(r, u, tx);
    RayDivZero(after.liquidityIndex);
  }

  lemma WithdrawalGap(amount: int, r: Reserve, after: Reserve, u: User, tx: int)
    requires Sound(r, tx) && after.liquidityIndex == LiquidityIndex(r, tx)
    ensures after.liquidityIndex >= RAY
    ensures var taken := WithdrawAmount(amount, r, u, tx);
            WithdrawalTolerated(amount, r, after, u, tx)
            <==> AlmostEqual(RayMul(u.scaledLTokenBalance, after.liquidityIndex) - taken,
                             RayMul(u.scaledLTokenBalance - RayDiv(taken, after.liquidityIndex), after.liquidityIndex))
  {
    hide RayMul, RayDiv, LiquidityIndex, LTokenBalance, VariableDebtBalance, UserStableDebt;
    BalanceIsScaled(r, u, tx);
    RayDivZero(after.liquidityIndex);
  }

  /** Every deposit by every user is predicted within the tolerance. */
  ghost predicate DepositsTolerated(r: Reserve, after: Reserve, tx: int)
    requires after.liquidityIndex != 0
  {
    forall amount, u: User :: amount >= 0 && u.scaledLTokenBalance >= 0 ==> DepositTolerated(amount, r, after, u, tx)
  }

  /** Every withdrawal within the balance is predicted within the tolerance. */
  ghost predicate WithdrawalsTolerated(r: Reserve, after: Reserve, tx: int)
    requires after.liquidityIndex != 0
  {
    forall amount, u: User :: 0 <= amount <= LTokenBalance(r, u, tx) && u.scaledLTokenBalance >= 0 ==>
      WithdrawalTolerated(amount, r, after, u, tx)
  }

  /** All deposits stay within the tolerance if and only if the index is tolerated: at most six rays,
      or more by a divisor of a ray. */
  lemma DepositsToleratedIff(r: Reserve, after: Reserve, tx: int)
    requires Sound(r, tx) && after.liquidityIndex == LiquidityIndex(r, tx)
    ensures after.liquidityIndex >= RAY
    ensures DepositsTolerated(r, after, tx) <==> ToleratedIndex(after.liquidityIndex)
  {
    hide RayMul, RayDiv, LiquidityIndex, LTokenBalance, ToleratedIndex, Sound, DepositTolerated, Recomputed;
    var index := after.liquidityIndex;
    DepositGap(0, r, after, Depositor(0), tx);
    if ToleratedIndex(index) {
      forall amount, u: User | amount >= 0 && u.scaledLTokenBalance >= 0
        ensures DepositTolerated(amount, r, after, u, tx)
      {
        DepositGap(amount, r, after, u, tx);
        WithinTolerance(u.scaledLTokenBalance, amount, index);
      }
    } else {
      var s, amount := MissedByFour(index);
      DepositGap(amount, r, after, Depositor(s), tx);
      assert !DepositTolerated(amount, r, after, Depositor(s), tx);
    }
  }

  lemma OneWithdrawalTolerated(amount: int, r: Reserve, after: Reserve, u: User, tx: int)
    requires Sound(r, tx) && after.liquidityIndex == LiquidityIndex(r, tx) && u.scaledLTokenBalance >= 0
    requires 0 <= WithdrawAmount(amount, r, u, tx) <= LTokenBalance(r, u, tx)
    requires ToleratedIndex(after.liquidityIndex)
    ensures after.liquidityIndex >= RAY
    ensures WithdrawalTolerated(amount, r, after, u, tx)
  {
    hide RayMul, RayDiv, LiquidityIndex, LTokenBalance, ToleratedIndex, Sound, WithdrawalTolerated, AlmostEqual;
    WithdrawalGap(amount, r, after, u, tx);
    BalanceIsScaled(r, u, tx);
    var taken := WithdrawAmount(amount, r, u, tx);
    UnscaleWithin(taken, u.scaledLTokenBalance, after.liquidityIndex);
    TakingAgrees(u.scaledLTokenBalance, taken, after.liquidityIndex);
  }

  lemma WithdrawalMissed(r: Reserve, after: Reserve, tx: int) returns (u: User, amount: int)
    requires Sound(r, tx) && after.liquidityIndex == LiquidityIndex(r, tx) && !ToleratedIndex(after.liquidityIndex)
    ensures after.liquidityIndex >= RAY
    ensures u.scaledLTokenBalance >= 0 && 0 <= amount <= LTokenBalance(r, u, tx)
    ensures !WithdrawalTolerated(amount, r, after, u, tx)
  {
    hide RayMul, RayDiv, LiquidityIndex, LTokenBalance, ToleratedIndex, Sound, WithdrawalTolerated;
    var index := after.liquidityIndex;
    DepositGap(0, r, after, Depositor(0), tx);
    var s;
    s, amount := MissedByFour(index);
    u := Depositor(s + RayDiv(amount, index));
    BalanceIsScaled(r, u, tx);
    WithdrawalGap(amount, r, after, u, tx);
  }

  /** The same holds for withdrawals. */
  lemma WithdrawalsToleratedIff(r: Reserve, after: Reserve, tx: int)
    requires Sound(r, tx) && after.liquidityIndex == LiquidityIndex(r, tx)
    ensures after.liquidityIndex >= RAY
    ensures WithdrawalsTolerated(r, after, tx) <==> ToleratedIndex(after.liquidityIndex)
  {
    hide RayMul, RayDiv, LiquidityIndex, LTokenBalance, ToleratedIndex, Sound, WithdrawalTolerated;
    DepositGap(0, r, after, Depositor(0), tx);
    if ToleratedIndex(after.liquidityIndex) {
      forall amount, u: User | 0 <= amount <= LTokenBalance(r, u, tx) && u.scaledLTokenBalance >= 0
        ensures WithdrawalTolerated(amount, r, after, u, tx)
      {
        OneWithdrawalTolerated(amount, r, after, u, tx);
      }
    } else {
      var u, amount := WithdrawalMissed(r, after, tx);
    }
  }

  /** A user who has only deposited. */
  function Depositor(scaled: int): User {
    User(scaled, 0, 0, 0, 0, 0, 0, 0, 0, false, 0)
  }

  /** Six units above six rays one unit of the scaled balance is already enough to miss: adding a ray
      is predicted four units short. At eight rays a deposit of 4 units is worth 8. */
  lemma ToleranceExceeded()
    ensures var s, index := 83333333333333333333333333, 6 * RAY + 6;
            !ToleratedIndex(index) && Abs(Recomputed(s, RAY, index) - (RayMul(s, index) + RAY)) == 4
    ensures Recomputed(0, 4, 8 * RAY) == 8 && RayMul(0, 8 * RAY) + 4 == 4
  {
  }
}
