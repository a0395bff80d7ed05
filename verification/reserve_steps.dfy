/** The reserve side of every action (test-suites/test-palmy/helpers/utils/calculations.ts).

    Each action has a reference definition on values, `After...`: advance the indexes, move
    cash and debt (`...Moved`), then price the result (`Repriced`). The methods
    `CalcExpectedReserveDataAfter...` are the original's computations, which fill a fresh
    record field by field; each is proved to produce exactly its reference.

    Where the original leaves an accessory field unset, the record is closed: the market rate
    is carried over, `lastUpdateTimestamp` becomes the time of the transaction, and so does
    `totalStableDebtLastUpdated` when the action resets the stable principal. */
module ReserveSteps {
  import opened FixedPoint
  import opened Rates
  import opened Records
  import opened Balances

  // ---------- Common parts ----------

  /** The original divides by total liquidity when pricing a reserve with debt. */
  predicate Priceable(r: Reserve) {
    (r.totalStableDebt == 0 && r.totalVariableDebt == 0) || r.totalLiquidity != 0
  }

  function WithUtilization(r: Reserve): Reserve
    requires Priceable(r)
  {
    r.(utilizationRate := UtilizationRate(r.totalStableDebt, r.totalVariableDebt, r.totalLiquidity))
  }

  function Repriced(r: Reserve, p: ReserveParams): Reserve
    requires Priceable(r)
  {
    var u := UtilizationRate(r.totalStableDebt, r.totalVariableDebt, r.totalLiquidity);
    var rates := RatesFor(p, r.marketStableRate, u, r.totalStableDebt, r.totalVariableDebt, r.averageStableBorrowRate);
    r.(utilizationRate := u, liquidityRate := rates.liquidityRate, stableBorrowRate := rates.stableBorrowRate,
       variableBorrowRate := rates.variableBorrowRate)
  }

  /** Both indexes brought up to the time of the transaction. */
  function Accrued(r: Reserve, txTimestamp: int): Reserve {
    r.(liquidityIndex := LiquidityIndex(r, txTimestamp), variableBorrowIndex := VariableBorrowIndex(r, txTimestamp),
       lastUpdateTimestamp := txTimestamp)
  }

  function StableDebtUntil(r: Reserve, txTimestamp: int): int {
    TotalStableDebt(r.principalStableDebt, r.averageStableBorrowRate, r.totalStableDebtLastUpdated, txTimestamp)
  }

  function WithTotals(r: Reserve, totalStableDebt: int, totalVariableDebt: int): Reserve {
    r.(totalStableDebt := totalStableDebt, totalVariableDebt := totalVariableDebt,
       totalLiquidity := r.availableLiquidity + totalStableDebt + totalVariableDebt)
  }

  /** Restart the stable principal at the time of the transaction. */
  function WithStablePrincipal(r: Reserve, principal: int, averageRate: int, txTimestamp: int): Reserve {
    r.(principalStableDebt := principal, averageStableBorrowRate := averageRate,
       totalStableDebtLastUpdated := txTimestamp)
  }

  /** The common start of the actions: a fresh record whose indexes are up to date. */
  method Opened(before: Reserve, txTimestamp: int, stableDebtLastUpdated: int) returns (expected: ReserveRecord)
    ensures fresh(expected)
    ensures expected.liquidityIndex == LiquidityIndex(before, txTimestamp)
    ensures expected.variableBorrowIndex == VariableBorrowIndex(before, txTimestamp)
    ensures expected.marketStableRate == before.marketStableRate
    ensures expected.lastUpdateTimestamp == txTimestamp
    ensures expected.totalStableDebtLastUpdated == stableDebtLastUpdated
  {
    hide LiquidityIndex, VariableBorrowIndex;
    expected := new ReserveRecord(before.marketStableRate, txTimestamp, stableDebtLastUpdated);
    expected.liquidityIndex := LiquidityIndex(before, txTimestamp);
    expected.variableBorrowIndex := VariableBorrowIndex(before, txTimestamp);
  }

  /** The common end of the actions: utilization and rates from the record's own totals. */
  method Reprice(expected: ReserveRecord, p: ReserveParams)
    requires Priceable(expected.Data())
    modifies expected
    ensures expected.Data() == Repriced(old(expected.Data()), p)
  {
    hide UtilizationRate, RatesFor;
    expected.utilizationRate := UtilizationRate(expected.totalStableDebt, expected.totalVariableDebt,
                                                expected.totalLiquidity);
    var rates := CalcExpectedInterestRates(p, expected.marketStableRate, expected.utilizationRate,
                                           expected.totalStableDebt, expected.totalVariableDebt,
                                           expected.averageStableBorrowRate);
    expected.liquidityRate := rates.liquidityRate;
    expected.stableBorrowRate := rates.stableBorrowRate;
    expected.variableBorrowRate := rates.variableBorrowRate;
  }

  // ---------- Deposit ----------

  /** A deposit adds to the recorded total liquidity; unlike the other actions it does not
      rebuild the total from the accrued debts. */
  function DepositMoved(amount: int, r: Reserve, txTimestamp: int): Reserve {
    var a := Accrued(r, txTimestamp);
    a.(totalLiquidity := r.totalLiquidity + amount,
       availableLiquidity := r.availableLiquidity + amount,
       totalStableDebt := StableDebtUntil(r, txTimestamp),
       totalVariableDebt := RayMul(r.scaledVariableDebt, a.variableBorrowIndex))
  }

  function AfterDeposit(amount: int, r: Reserve, txTimestamp: int, p: ReserveParams): Reserve
    requires Priceable(DepositMoved(amount, r, txTimestamp))
  {
    Repriced(DepositMoved(amount, r, txTimestamp), p)
  }

  method CalcExpectedReserveDataAfterDeposit(amountDeposited: int, before: Reserve, txTimestamp: int, p: ReserveParams)
    returns (expected: ReserveRecord)
    requires Priceable(DepositMoved(amountDeposited, before, txTimestamp))
    ensures fresh(expected) && expected.Data() == AfterDeposit(amountDeposited, before, txTimestamp, p)
  {
    hide RayMul, LiquidityIndex, VariableBorrowIndex, TotalStableDebt, UtilizationRate, RatesFor;
    expected := Opened(before, txTimestamp, before.totalStableDebtLastUpdated);
    expected.totalLiquidity := before.totalLiquidity + amountDeposited;
    expected.availableLiquidity := before.availableLiquidity + amountDeposited;
    expected.averageStableBorrowRate := before.averageStableBorrowRate;
    expected.totalStableDebt := TotalStableDebt(before.principalStableDebt, before.averageStableBorrowRate,
                                                before.totalStableDebtLastUpdated, txTimestamp);
    expected.totalVariableDebt := RayMul(before.scaledVariableDebt, expected.variableBorrowIndex);
    expected.scaledVariableDebt := before.scaledVariableDebt;
    expected.principalStableDebt := before.principalStableDebt;
    Reprice(expected, p);
  }

  // ---------- Withdraw ----------

  /** The maximal amount stands for the user's whole deposit. */
  function WithdrawAmount(amount: int, r: Reserve, u: User, txTimestamp: int): int {
    if amount == MAX_UINT_AMOUNT then LTokenBalance(r, u, txTimestamp) else amount
  }

  function WithdrawMoved(amount: int, r: Reserve, txTimestamp: int): Reserve {
    var a := Accrued(r, txTimestamp);
    WithTotals(a.(availableLiquidity := r.availableLiquidity - amount),
               StableDebtUntil(r, txTimestamp), RayMul(r.scaledVariableDebt, a.variableBorrowIndex))
  }

  function AfterWithdraw(amount: int, r: Reserve, u: User, txTimestamp: int, p: ReserveParams): Reserve
    requires Priceable(WithdrawMoved(WithdrawAmount(amount, r, u, txTimestamp), r, txTimestamp))
  {
    Repriced(WithdrawMoved(WithdrawAmount(amount, r, u, txTimestamp), r, txTimestamp), p)
  }

  method CalcExpectedReserveDataAfterWithdraw(amountWithdrawn: int, before: Reserve, user: User, txTimestamp: int,
                                              p: ReserveParams)
    returns (expected: ReserveRecord)
    requires Priceable(WithdrawMoved(WithdrawAmount(amountWithdrawn, before, user, txTimestamp), before, txTimestamp))
    ensures fresh(expected) && expected.Data() == AfterWithdraw(amountWithdrawn, before, user, txTimestamp, p)
  {
    hide RayMul, LiquidityIndex, VariableBorrowIndex, TotalStableDebt, UtilizationRate, RatesFor, LTokenBalance;
    expected := Opened(before, txTimestamp, before.totalStableDebtLastUpdated);
    var amount := amountWithdrawn;
    if amount == MAX_UINT_AMOUNT {
      amount := LTokenBalance(before, user, txTimestamp);
    }
    expected.availableLiquidity := before.availableLiquidity - amount;
    expected.principalStableDebt := before.principalStableDebt;
    expected.scaledVariableDebt := before.scaledVariableDebt;
    expected.totalStableDebt := TotalStableDebt(before.principalStableDebt, before.averageStableBorrowRate,
                                                before.totalStableDebtLastUpdated, txTimestamp);
    expected.totalVariableDebt := RayMul(expected.scaledVariableDebt, expected.variableBorrowIndex);
    expected.averageStableBorrowRate := before.averageStableBorrowRate;
    expected.totalLiquidity := before.availableLiquidity - amount + expected.totalVariableDebt
        + expected.totalStableDebt;
    Reprice(expected, p);
  }

  // ---------- Borrow ----------

  /** Cash leaves the reserve, and the debt appears either in the stable principal, at the
      offered rate, or as scaled variable debt. */
  function BorrowMoved(amount: int, mode: RateMode, r: Reserve, txTimestamp: int): Reserve
    requires mode != Stable ==> VariableBorrowIndex(r, txTimestamp) != 0
  {
    var a := Accrued(r, txTimestamp).(availableLiquidity := r.availableLiquidity - amount);
    if mode == Stable then
      var debt := StableDebtUntil(r, txTimestamp);
      var average := AverageStableRate(r.averageStableBorrowRate, debt, amount, r.stableBorrowRate);
      WithTotals(WithStablePrincipal(a, debt + amount, average, txTimestamp),
                 debt + amount, RayMul(r.scaledVariableDebt, a.variableBorrowIndex))
    else
      var scaled := r.scaledVariableDebt + RayDiv(amount, a.variableBorrowIndex);
      var stable := StableDebtBalance(r.principalStableDebt, r.averageStableBorrowRate,
                                      r.totalStableDebtLastUpdated, txTimestamp);
      WithTotals(a.(scaledVariableDebt := scaled), stable, RayMul(scaled, a.variableBorrowIndex))
  }

  /** The totals a little later, at the priced rates. */
  function TotalsAt(r: Reserve, txTimestamp: int, currentTimestamp: int): Reserve {
    WithTotals(r,
               TotalStableDebt(r.principalStableDebt, r.averageStableBorrowRate, r.totalStableDebtLastUpdated,
                               currentTimestamp),
               RayMul(r.scaledVariableDebt, NormalizedDebt(r.variableBorrowRate, r.variableBorrowIndex, txTimestamp,
                                                           currentTimestamp)))
  }

  predicate BorrowDefined(amount: int, mode: RateMode, r: Reserve, txTimestamp: int, currentTimestamp: int,
                          p: ReserveParams)
  {
    && (mode != Stable ==> VariableBorrowIndex(r, txTimestamp) != 0)
    && Priceable(BorrowMoved(amount, mode, r, txTimestamp))
    && Priceable(TotalsAt(Repriced(BorrowMoved(amount, mode, r, txTimestamp), p), txTimestamp, currentTimestamp))
  }

  function AfterBorrow(amount: int, mode: RateMode, r: Reserve, txTimestamp: int, currentTimestamp: int,
                       p: ReserveParams): Reserve
    requires BorrowDefined(amount, mode, r, txTimestamp, currentTimestamp, p)
  {
    WithUtilization(TotalsAt(Repriced(BorrowMoved(amount, mode, r, txTimestamp), p), txTimestamp, currentTimestamp))
  }

  /** The rates right after the transaction, from totals the record does not hold. */
  method SetRatesAfterTx(expected: ReserveRecord, totalStableDebt: int, totalVariableDebt: int, p: ReserveParams)
    requires Priceable(WithTotals(expected.Data(), totalStableDebt, totalVariableDebt))
    modifies expected`liquidityRate, expected`stableBorrowRate, expected`variableBorrowRate
    ensures var priced := Repriced(WithTotals(old(expected.Data()), totalStableDebt, totalVariableDebt), p);
            expected.Data() == old(expected.Data()).(liquidityRate := priced.liquidityRate,
                                                     stableBorrowRate := priced.stableBorrowRate,
                                                     variableBorrowRate := priced.variableBorrowRate)
  {
    hide UtilizationRate, RatesFor;
    var utilizationRateAfterTx := UtilizationRate(totalStableDebt, totalVariableDebt,
                                                  expected.availableLiquidity + totalStableDebt + totalVariableDebt);
    var rates := CalcExpectedInterestRates(p, expected.marketStableRate, utilizationRateAfterTx,
                                           totalStableDebt, totalVariableDebt, expected.averageStableBorrowRate);
    expected.liquidityRate := rates.liquidityRate;
    expected.stableBorrowRate := rates.stableBorrowRate;
    expected.variableBorrowRate := rates.variableBorrowRate;
  }

  /** The totals and the utilization at the current time, at the new rates. */
  method SetCurrentTotals(expected: ReserveRecord, txTimestamp: int, currentTimestamp: int)
    requires Priceable(TotalsAt(expected.Data(), txTimestamp, currentTimestamp))
    modifies expected
    ensures expected.Data() == WithUtilization(TotalsAt(old(expected.Data()), txTimestamp, currentTimestamp))
  {
    hide RayMul, TotalStableDebt, NormalizedDebt, UtilizationRate;
    expected.totalStableDebt := TotalStableDebt(expected.principalStableDebt, expected.averageStableBorrowRate,
                                                expected.totalStableDebtLastUpdated, currentTimestamp);
    expected.totalVariableDebt := RayMul(expected.scaledVariableDebt,
                                         NormalizedDebt(expected.variableBorrowRate, expected.variableBorrowIndex,
                                                        txTimestamp, currentTimestamp));
    expected.totalLiquidity := expected.availableLiquidity + expected.totalStableDebt + expected.totalVariableDebt;
    expected.utilizationRate := UtilizationRate(expected.totalStableDebt, expected.totalVariableDebt,
                                                expected.totalLiquidity);
  }

  method CalcExpectedReserveDataAfterBorrow(amountBorrowed: int, borrowRateMode: RateMode, before: Reserve,
                                            txTimestamp: int, currentTimestamp: int, p: ReserveParams)
    returns (expected: ReserveRecord)
    requires BorrowDefined(amountBorrowed, borrowRateMode, before, txTimestamp, currentTimestamp, p)
    ensures fresh(expected) && expected.Data()
         == AfterBorrow(amountBorrowed, borrowRateMode, before, txTimestamp, currentTimestamp, p)
  {
    hide RayMul, RayDiv, LiquidityIndex, VariableBorrowIndex, TotalStableDebt, StableDebtBalance, UtilizationRate,
      RatesFor,
      AverageStableRate, NormalizedDebt;
    expected := Opened(before, txTimestamp, before.totalStableDebtLastUpdated);
    expected.availableLiquidity := before.availableLiquidity - amountBorrowed;
    if borrowRateMode == Stable {
      expected.scaledVariableDebt := before.scaledVariableDebt;
      var expectedVariableDebtAfterTx := RayMul(expected.scaledVariableDebt, expected.variableBorrowIndex);
      var expectedStableDebtUntilTx := TotalStableDebt(before.principalStableDebt, before.averageStableBorrowRate,
                                                       before.totalStableDebtLastUpdated, txTimestamp);
      expected.principalStableDebt := expectedStableDebtUntilTx + amountBorrowed;
      expected.averageStableBorrowRate := AverageStableRate(before.averageStableBorrowRate, expectedStableDebtUntilTx,
                                                            amountBorrowed, before.stableBorrowRate);
      expected.totalStableDebtLastUpdated := txTimestamp;
      SetRatesAfterTx(expected, expected.principalStableDebt, expectedVariableDebtAfterTx, p);
    } else {
      expected.principalStableDebt := before.principalStableDebt;
      var totalStableDebtAfterTx := StableDebtBalance(before.principalStableDebt, before.averageStableBorrowRate,
                                                      before.totalStableDebtLastUpdated, txTimestamp);
      expected.averageStableBorrowRate := before.averageStableBorrowRate;
      expected.scaledVariableDebt := before.scaledVariableDebt + RayDiv(amountBorrowed, expected.variableBorrowIndex);
      var totalVariableDebtAfterTx := RayMul(expected.scaledVariableDebt, expected.variableBorrowIndex);
      SetRatesAfterTx(expected, totalStableDebtAfterTx, totalVariableDebtAfterTx, p);
    }
    SetCurrentTotals(expected, txTimestamp, currentTimestamp);
  }

  // ---------- Repay ----------

  /** The maximal amount, of either sign, stands for the user's whole debt of that kind. */
  function RepayAmount(amount: int, mode: RateMode, r: Reserve, u: User, timestamp: int): int {
    if Abs(amount) == MAX_UINT_AMOUNT then
      if mode == Stable then UserStableDebt(u, timestamp) else VariableDebtBalance(r, u, timestamp)
    else amount
  }

  /** What burning stable debt leaves of a total debt and its average rate. Accumulated error can
      push either below zero; then both are erased. */
  function StableBurn(averageRate: int, debt: int, amount: int, rate: int): (int, int) {
    if debt - amount < 0 then (0, 0)
    else
      var average := AverageStableRate(averageRate, debt, -amount, rate);
      if average < 0 then (0, 0) else (debt - amount, average)
  }

  /** Neither clamp discards anything: all of the debt goes, or part of it whose interest weight
      exceeds the whole weight by less than the debt that is left. */
  predicate StableSurvives(averageRate: int, debt: int, amount: int, rate: int) {
    amount == debt || (amount < debt && rate * amount - averageRate * debt < debt - amount)
  }

  /** The average over what is left turns negative exactly when that weight condition fails. */
  lemma AverageSign(averageRate: int, debt: int, amount: int, rate: int)
    requires amount <= debt
    ensures AverageStableRate(averageRate, debt, -amount, rate) >= 0
       <==> StableSurvives(averageRate, debt, amount, rate)
  {
    assert rate * -amount == -(rate * amount);
    if amount < debt {
      TruncSign(averageRate * debt - rate * amount, debt - amount);
    }
  }

  /** A burn removes exactly its amount if and only if neither clamp applies; otherwise nothing is
      left of the debt or of its rate. */
  lemma BurnSurvivesIff(averageRate: int, debt: int, amount: int, rate: int)
    ensures var (left, average) := StableBurn(averageRate, debt, amount, rate);
            && left >= 0 && average >= 0
            && (left + amount == debt <==> StableSurvives(averageRate, debt, amount, rate))
            && (left + amount != debt ==> left == 0 && average == 0)
  {
    if amount <= debt {
      AverageSign(averageRate, debt, amount, rate);
    }
    hide AverageStableRate;
  }

  method CalcStableBurn(averageRate: int, debt: int, amount: int, rate: int) returns (left: int, average: int)
    ensures (left, average) == StableBurn(averageRate, debt, amount, rate)
    ensures left >= 0 && average >= 0
    ensures left + amount == debt <==> StableSurvives(averageRate, debt, amount, rate)
    ensures left + amount != debt ==> left == 0 && average == 0
  {
    hide AverageStableRate, StableSurvives;
    BurnSurvivesIff(averageRate, debt, amount, rate);
    left := debt - amount;
    if left < 0 {
      average := 0;
      left := 0;
    } else {
      average := AverageStableRate(averageRate, debt, -amount, rate);
      if average < 0 {
        average := 0;
        left := 0;
      }
    }
  }

  function RepayMoved(amount: int, mode: RateMode, r: Reserve, u: User, txTimestamp: int): Reserve
    requires mode != Stable ==> VariableBorrowIndex(r, txTimestamp) != 0
  {
    var a := Accrued(r, txTimestamp).(availableLiquidity := r.availableLiquidity + amount);
    if mode == Stable then
      var (left, average) := StableBurn(r.averageStableBorrowRate, StableDebtUntil(r, txTimestamp), amount,
                                        u.stableBorrowRate);
      WithTotals(WithStablePrincipal(a, left, average, txTimestamp),
                 left, RayMul(r.scaledVariableDebt, a.variableBorrowIndex))
    else
      var scaled := r.scaledVariableDebt - RayDiv(amount, a.variableBorrowIndex);
      WithTotals(a.(scaledVariableDebt := scaled), r.totalStableDebt, RayMul(scaled, a.variableBorrowIndex))
  }

  predicate RepayDefined(amount: int, mode: RateMode, r: Reserve, u: User, txTimestamp: int) {
    && (mode != Stable ==> VariableBorrowIndex(r, txTimestamp) != 0)
    && Priceable(RepayMoved(RepayAmount(amount, mode, r, u, txTimestamp), mode, r, u, txTimestamp))
  }

  function AfterRepay(amount: int, mode: RateMode, r: Reserve, u: User, txTimestamp: int, p: ReserveParams): Reserve
    requires RepayDefined(amount, mode, r, u, txTimestamp)
  {
    Repriced(RepayMoved(RepayAmount(amount, mode, r, u, txTimestamp), mode, r, u, txTimestamp), p)
  }

  /** The debts after repaying at a stable rate: the clamped burn, and the variable debt as it is. */
  method SetStableRepaid(expected: ReserveRecord, before: Reserve, amount: int, userRate: int, txTimestamp: int)
    modifies expected
    ensures var (left, average) := StableBurn(before.averageStableBorrowRate, StableDebtUntil(before, txTimestamp),
                                              amount, userRate);
            expected.Data() == old(expected.Data()).(
              principalStableDebt := left, totalStableDebt := left, averageStableBorrowRate := average,
              totalStableDebtLastUpdated := txTimestamp, scaledVariableDebt := before.scaledVariableDebt,
              totalVariableDebt := RayMul(before.scaledVariableDebt, old(expected.variableBorrowIndex)))
  {
    hide RayMul, TotalStableDebt, StableBurn, StableSurvives;
    var expectedDebt := TotalStableDebt(before.principalStableDebt, before.averageStableBorrowRate,
                                        before.totalStableDebtLastUpdated, txTimestamp);
    var left, average := CalcStableBurn(before.averageStableBorrowRate, expectedDebt, amount, userRate);
    expected.principalStableDebt := left;
    expected.totalStableDebt := left;
    expected.averageStableBorrowRate := average;
    expected.totalStableDebtLastUpdated := txTimestamp;
    expected.scaledVariableDebt := before.scaledVariableDebt;
    expected.totalVariableDebt := RayMul(expected.scaledVariableDebt, expected.variableBorrowIndex);
  }

  /** The debts after repaying at a variable rate: the recorded stable debt is kept. */
  method SetVariableRepaid(expected: ReserveRecord, before: Reserve, amount: int)
    requires expected.variableBorrowIndex != 0
    modifies expected
    ensures var scaled := before.scaledVariableDebt - RayDiv(amount, old(expected.variableBorrowIndex));
            expected.Data() == old(expected.Data()).(
              principalStableDebt := before.principalStableDebt, totalStableDebt := before.totalStableDebt,
              averageStableBorrowRate := before.averageStableBorrowRate, scaledVariableDebt := scaled,
              totalVariableDebt := RayMul(scaled, old(expected.variableBorrowIndex)))
  {
    hide RayMul, RayDiv;
    expected.scaledVariableDebt := before.scaledVariableDebt - RayDiv(amount, expected.variableBorrowIndex);
    expected.totalVariableDebt := RayMul(expected.scaledVariableDebt, expected.variableBorrowIndex);
    expected.principalStableDebt := before.principalStableDebt;
    expected.totalStableDebt := before.totalStableDebt;
    expected.averageStableBorrowRate := before.averageStableBorrowRate;
  }

  method CalcExpectedReserveDataAfterRepay(amountRepaid: int, borrowRateMode: RateMode, before: Reserve, user: User,
                                           txTimestamp: int, p: ReserveParams)
    returns (expected: ReserveRecord)
    requires RepayDefined(amountRepaid, borrowRateMode, before, user, txTimestamp)
    ensures fresh(expected) && expected.Data() == AfterRepay(amountRepaid, borrowRateMode, before, user, txTimestamp, p)
  {
    hide RayMul, RayDiv, LiquidityIndex, VariableBorrowIndex, TotalStableDebt, UtilizationRate, RatesFor,
      StableBurn, VariableDebtBalance, UserStableDebt;
    expected := Opened(before, txTimestamp, before.totalStableDebtLastUpdated);
    var amount := amountRepaid;
    var userStableDebt := UserStableDebt(user, txTimestamp);
    var userVariableDebt := VariableDebtBalance(before, user, txTimestamp);
    if Abs(amount) == MAX_UINT_AMOUNT {
      if borrowRateMode == Stable {
        amount := userStableDebt;
      } else {
        amount := userVariableDebt;
      }
    }
    if borrowRateMode == Stable {
      SetStableRepaid(expected, before, amount, user.stableBorrowRate, txTimestamp);
    } else {
      SetVariableRepaid(expected, before, amount);
    }
    expected.availableLiquidity := before.availableLiquidity + amount;
    expected.totalLiquidity := expected.availableLiquidity + expected.totalStableDebt + expected.totalVariableDebt;
    Reprice(expected, p);
  }

  // ---------- Swapping the rate mode ----------

  /** `mode` is the mode the user leaves. */
  function SwapMoved(r: Reserve, u: User, mode: RateMode, txTimestamp: int): Reserve
    requires VariableBorrowIndex(r, txTimestamp) != 0
  {
    var a := Accrued(r, txTimestamp);
    var debt := StableDebtUntil(r, txTimestamp);
    if mode == Stable then
      var moved := UserStableDebt(u, txTimestamp);
      var scaled := r.scaledVariableDebt + RayDiv(moved, a.variableBorrowIndex);
      var average := AverageStableRate(r.averageStableBorrowRate, debt, -moved, u.stableBorrowRate);
      WithTotals(WithStablePrincipal(a, debt - moved, average, txTimestamp).(scaledVariableDebt := scaled),
                 debt - moved, RayMul(scaled, a.variableBorrowIndex))
    else
      var moved := VariableDebtBalance(r, u, txTimestamp);
      var scaled := r.scaledVariableDebt - RayDiv(moved, a.variableBorrowIndex);
      // the average weighs the recorded total, not the accrued one
      var average := AverageStableRate(r.averageStableBorrowRate, r.totalStableDebt, moved, r.stableBorrowRate);
      WithTotals(WithStablePrincipal(a, debt + moved, average, txTimestamp).(scaledVariableDebt := scaled),
                 debt + moved, RayMul(scaled, a.variableBorrowIndex))
  }

  predicate SwapDefined(r: Reserve, u: User, mode: RateMode, txTimestamp: int) {
    && VariableBorrowIndex(r, txTimestamp) != 0
    && Priceable(SwapMoved(r, u, mode, txTimestamp))
  }

  function AfterSwapRateMode(r: Reserve, u: User, mode: RateMode, txTimestamp: int, p: ReserveParams): Reserve
    requires SwapDefined(r, u, mode, txTimestamp)
  {
    Repriced(SwapMoved(r, u, mode, txTimestamp), p)
  }

  /** The debts after leaving the stable rate. */
  method SetSwappedToVariable(expected: ReserveRecord, before: Reserve, totalStableDebtUntilTx: int, stableDebt: int,
                              userRate: int)
    requires expected.variableBorrowIndex != 0
    modifies expected
    ensures var scaled := before.scaledVariableDebt + RayDiv(stableDebt, old(expected.variableBorrowIndex));
            expected.Data() == old(expected.Data()).(
              scaledVariableDebt := scaled, totalVariableDebt := RayMul(scaled, old(expected.variableBorrowIndex)),
              totalStableDebt := totalStableDebtUntilTx - stableDebt,
              principalStableDebt := totalStableDebtUntilTx - stableDebt,
              averageStableBorrowRate := AverageStableRate(before.averageStableBorrowRate, totalStableDebtUntilTx,
                                                           -stableDebt, userRate))
  {
    hide RayMul, RayDiv, AverageStableRate;
    expected.scaledVariableDebt := before.scaledVariableDebt + RayDiv(stableDebt, expected.variableBorrowIndex);
    expected.totalVariableDebt := RayMul(expected.scaledVariableDebt, expected.variableBorrowIndex);
    expected.totalStableDebt := totalStableDebtUntilTx - stableDebt;
    expected.principalStableDebt := expected.totalStableDebt;
    expected.averageStableBorrowRate := AverageStableRate(before.averageStableBorrowRate,
                                                          expected.principalStableDebt + stableDebt,
                                                          -stableDebt, userRate);
  }

  /** The debts after leaving the variable rate. */
  method SetSwappedToStable(expected: ReserveRecord, before: Reserve, totalStableDebtUntilTx: int, variableDebt: int)
    requires expected.variableBorrowIndex != 0
    modifies expected
    ensures var scaled := before.scaledVariableDebt - RayDiv(variableDebt, old(expected.variableBorrowIndex));
            expected.Data() == old(expected.Data()).(
              scaledVariableDebt := scaled, totalVariableDebt := RayMul(scaled, old(expected.variableBorrowIndex)),
              totalStableDebt := totalStableDebtUntilTx + variableDebt,
              principalStableDebt := totalStableDebtUntilTx + variableDebt,
              averageStableBorrowRate := AverageStableRate(before.averageStableBorrowRate, before.totalStableDebt,
                                                           variableDebt,
                                                           before.stableBorrowRate))
  {
    hide RayMul, RayDiv, AverageStableRate;
    expected.totalStableDebt := totalStableDebtUntilTx + variableDebt;
    expected.principalStableDebt := expected.totalStableDebt;
    expected.scaledVariableDebt := before.scaledVariableDebt - RayDiv(variableDebt, expected.variableBorrowIndex);
    expected.totalVariableDebt := RayMul(expected.scaledVariableDebt, expected.variableBorrowIndex);
    expected.averageStableBorrowRate := AverageStableRate(before.averageStableBorrowRate, before.totalStableDebt,
                                                          variableDebt,
                                                          before.stableBorrowRate);
  }

  method CalcExpectedReserveDataAfterSwapRateMode(before: Reserve, user: User, rateMode: RateMode, txTimestamp: int,
                                                  p: ReserveParams)
    returns (expected: ReserveRecord)
    requires SwapDefined(before, user, rateMode, txTimestamp)
    ensures fresh(expected) && expected.Data() == AfterSwapRateMode(before, user, rateMode, txTimestamp, p)
  {
    hide RayMul, RayDiv, LiquidityIndex, VariableBorrowIndex, TotalStableDebt, StableDebtBalance, UtilizationRate,
      RatesFor,
      AverageStableRate, VariableDebtBalance, UserStableDebt;
    expected := Opened(before, txTimestamp, txTimestamp);
    var variableDebt := VariableDebtBalance(before, user, txTimestamp);
    var stableDebt := UserStableDebt(user, txTimestamp);
    expected.availableLiquidity := before.availableLiquidity;
    var totalStableDebtUntilTx := TotalStableDebt(before.principalStableDebt, before.averageStableBorrowRate,
                                                  before.totalStableDebtLastUpdated, txTimestamp);
    if rateMode == Stable {
      SetSwappedToVariable(expected, before, totalStableDebtUntilTx, stableDebt, user.stableBorrowRate);
    } else {
      SetSwappedToStable(expected, before, totalStableDebtUntilTx, variableDebt);
    }
    expected.totalLiquidity := before.availableLiquidity + expected.totalStableDebt + expected.totalVariableDebt;
    Reprice(expected, p);
  }

  // ---------- Rebalancing a stable rate ----------

  /** The user's debt is taken out at the old rate and put back at the offered one. */
  function RebalanceMoved(r: Reserve, u: User, txTimestamp: int): Reserve {
    var a := Accrued(r, txTimestamp);
    var debt := StableDebtUntil(r, txTimestamp);
    var userDebt := UserStableDebt(u, txTimestamp);
    var averageWithout := AverageStableRateRebalance(r.averageStableBorrowRate, debt, -userDebt, u.stableBorrowRate);
    var average := AverageStableRateRebalance(averageWithout, debt - userDebt, userDebt, r.stableBorrowRate);
    WithTotals(WithStablePrincipal(a, debt, average, txTimestamp), debt,
               RayMul(r.scaledVariableDebt, a.variableBorrowIndex))
  }

  function AfterRebalance(r: Reserve, u: User, txTimestamp: int, p: ReserveParams): Reserve
    requires Priceable(RebalanceMoved(r, u, txTimestamp))
  {
    Repriced(RebalanceMoved(r, u, txTimestamp), p)
  }

  method CalcExpectedReserveDataAfterStableRateRebalance(before: Reserve, user: User, txTimestamp: int,
                                                         p: ReserveParams)
    returns (expected: ReserveRecord)
    requires Priceable(RebalanceMoved(before, user, txTimestamp))
    ensures fresh(expected) && expected.Data() == AfterRebalance(before, user, txTimestamp, p)
  {
    hide RayMul, LiquidityIndex, VariableBorrowIndex, TotalStableDebt, StableDebtBalance, UtilizationRate, RatesFor,
      AverageStableRateRebalance, UserStableDebt;
    expected := Opened(before, txTimestamp, txTimestamp);
    var userStableDebt := UserStableDebt(user, txTimestamp);
    expected.scaledVariableDebt := before.scaledVariableDebt;
    expected.totalVariableDebt := RayMul(expected.scaledVariableDebt, expected.variableBorrowIndex);
    expected.totalStableDebt := TotalStableDebt(before.principalStableDebt, before.averageStableBorrowRate,
                                                before.totalStableDebtLastUpdated, txTimestamp);
    expected.principalStableDebt := expected.totalStableDebt;
    expected.availableLiquidity := before.availableLiquidity;
    expected.totalLiquidity := expected.availableLiquidity + expected.totalStableDebt + expected.totalVariableDebt;
    var avgRateBefore := AverageStableRateRebalance(before.averageStableBorrowRate, expected.totalStableDebt,
                                                    -userStableDebt,
                                                    user.stableBorrowRate);
    expected.averageStableBorrowRate := AverageStableRateRebalance(avgRateBefore,
                                                                   expected.totalStableDebt - userStableDebt,
                                                                   userStableDebt, before.stableBorrowRate);
    Reprice(expected, p);
  }
}
