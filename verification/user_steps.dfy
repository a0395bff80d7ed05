/** The user side of every action (test-suites/test-palmy/helpers/utils/calculations.ts), as
    reference definitions on values and as the original's field-by-field computations. */
module UserSteps {
  import opened FixedPoint
  import opened Records
  import opened Balances
  import opened ReserveSteps

  // ---------- Deposit ----------

  /** The stable principal ends up holding the variable debt, as in the original, whose last
      chained assignment overwrites it. */
  function UserAfterDeposit(amount: int, r: Reserve, after: Reserve, u: User, txTimestamp: int): User
    requires after.liquidityIndex != 0
  {
    var variableDebt := VariableDebtBalance(r, u, txTimestamp);
    u.(scaledLTokenBalance := ScaledLTokenBalance(u, after.liquidityIndex, amount, 0),
       currentLTokenBalance := LTokenBalance(r, u, txTimestamp) + amount,
       currentStableDebt := UserStableDebt(u, txTimestamp),
       currentVariableDebt := variableDebt,
       principalStableDebt := variableDebt,
       liquidityRate := after.liquidityRate,
       usageAsCollateralEnabled := u.currentLTokenBalance == 0 || u.usageAsCollateralEnabled,
       walletBalance := u.walletBalance - amount)
  }

  method CalcExpectedUserDataAfterDeposit(amountDeposited: int, before: Reserve, after: Reserve, user: User,
                                          txTimestamp: int)
    returns (expected: UserRecord)
    requires after.liquidityIndex != 0
    ensures fresh(expected) && expected.Data() == UserAfterDeposit(amountDeposited, before, after, user, txTimestamp)
  {
    hide UserStableDebt, VariableDebtBalance, LTokenBalance, ScaledLTokenBalance;
    expected := new UserRecord();
    expected.currentStableDebt := UserStableDebt(user, txTimestamp);
    expected.currentVariableDebt := VariableDebtBalance(before, user, txTimestamp);
    expected.principalStableDebt := user.principalStableDebt;
    expected.scaledVariableDebt := user.scaledVariableDebt;
    expected.stableBorrowRate := user.stableBorrowRate;
    expected.stableRateLastUpdated := user.stableRateLastUpdated;
    expected.liquidityRate := after.liquidityRate;
    expected.scaledLTokenBalance := ScaledLTokenBalance(user, after.liquidityIndex, amountDeposited, 0);
    expected.currentLTokenBalance := LTokenBalance(before, user, txTimestamp) + amountDeposited;
    if user.currentLTokenBalance == 0 {
      expected.usageAsCollateralEnabled := true;
    } else {
      expected.usageAsCollateralEnabled := user.usageAsCollateralEnabled;
    }
    expected.walletBalance := user.walletBalance - amountDeposited;
    expected.principalStableDebt := UserStableDebt(user, txTimestamp);
    expected.currentStableDebt := expected.principalStableDebt;
    expected.principalStableDebt := VariableDebtBalance(before, user, txTimestamp);
    expected.currentVariableDebt := expected.principalStableDebt;
  }

  // ---------- Withdraw ----------

  function UserAfterWithdraw(amount: int, r: Reserve, after: Reserve, u: User, txTimestamp: int): User
    requires after.liquidityIndex != 0
  {
    var taken := WithdrawAmount(amount, r, u, txTimestamp);
    var left := LTokenBalance(r, u, txTimestamp) - taken;
    u.(scaledLTokenBalance := ScaledLTokenBalance(u, after.liquidityIndex, 0, taken),
       currentLTokenBalance := left,
       currentStableDebt := UserStableDebt(u, txTimestamp),
       currentVariableDebt := VariableDebtBalance(r, u, txTimestamp),
       liquidityRate := after.liquidityRate,
       usageAsCollateralEnabled := u.currentLTokenBalance == 0 || (left != 0 && u.usageAsCollateralEnabled),
       walletBalance := u.walletBalance + taken)
  }

  method CalcExpectedUserDataAfterWithdraw(amountWithdrawn: int, before: Reserve, after: Reserve, user: User,
                                           txTimestamp: int)
    returns (expected: UserRecord)
    requires after.liquidityIndex != 0
    ensures fresh(expected) && expected.Data() == UserAfterWithdraw(amountWithdrawn, before, after, user, txTimestamp)
  {
    hide UserStableDebt, VariableDebtBalance, LTokenBalance, ScaledLTokenBalance;
    expected := new UserRecord();
    var lTokenBalance := LTokenBalance(before, user, txTimestamp);
    var amount := amountWithdrawn;
    if amount == MAX_UINT_AMOUNT {
      amount := lTokenBalance;
    }
    expected.scaledLTokenBalance := ScaledLTokenBalance(user, after.liquidityIndex, 0, amount);
    expected.currentLTokenBalance := lTokenBalance - amount;
    expected.principalStableDebt := user.principalStableDebt;
    expected.scaledVariableDebt := user.scaledVariableDebt;
    expected.currentStableDebt := UserStableDebt(user, txTimestamp);
    expected.currentVariableDebt := VariableDebtBalance(before, user, txTimestamp);
    expected.stableBorrowRate := user.stableBorrowRate;
    expected.stableRateLastUpdated := user.stableRateLastUpdated;
    expected.liquidityRate := after.liquidityRate;
    if user.currentLTokenBalance == 0 {
      expected.usageAsCollateralEnabled := true;
    } else {
      // withdrawing everything disables the collateral
      if expected.currentLTokenBalance == 0 {
        expected.usageAsCollateralEnabled := false;
      } else {
        expected.usageAsCollateralEnabled := user.usageAsCollateralEnabled;
      }
    }
    expected.walletBalance := user.walletBalance + amount;
  }

  // ---------- Borrow ----------

  predicate UserBorrowDefined(amount: int, mode: RateMode, after: Reserve, u: User, txTimestamp: int) {
    if mode == Stable then UserStableDebt(u, txTimestamp) + amount != 0 else after.variableBorrowIndex != 0
  }

  /** The debt part. The variable branch starts from the scaled debt of the whole reserve, as in
      the original. */
  function UserBorrowMoved(amount: int, mode: RateMode, r: Reserve, after: Reserve, u: User,
                           txTimestamp: int, currentTimestamp: int): User
    requires UserBorrowDefined(amount, mode, after, u, txTimestamp)
  {
    if mode == Stable then
      var debt := UserStableDebt(u, txTimestamp);
      var rate := UserStableRate(debt, u.stableBorrowRate, amount, r.stableBorrowRate);
      u.(principalStableDebt := debt + amount, stableBorrowRate := rate, stableRateLastUpdated := txTimestamp,
         currentStableDebt := StableDebtBalance(debt + amount, rate, txTimestamp, currentTimestamp))
    else
      u.(scaledVariableDebt := r.scaledVariableDebt + RayDiv(amount, after.variableBorrowIndex),
         currentStableDebt := UserStableDebt(u, currentTimestamp))
  }

  function UserAfterBorrow(amount: int, mode: RateMode, r: Reserve, after: Reserve, u: User,
                           txTimestamp: int, currentTimestamp: int): User
    requires UserBorrowDefined(amount, mode, after, u, txTimestamp)
  {
    var moved := UserBorrowMoved(amount, mode, r, after, u, txTimestamp, currentTimestamp);
    moved.(currentVariableDebt := VariableDebtBalance(after, moved, currentTimestamp),
           liquidityRate := after.liquidityRate,
           currentLTokenBalance := LTokenBalance(after, u, currentTimestamp),
           walletBalance := u.walletBalance + amount)
  }

  method CalcExpectedUserDataAfterBorrow(amountBorrowed: int, interestRateMode: RateMode, before: Reserve,
                                         after: Reserve,
                                         user: User, txTimestamp: int, currentTimestamp: int)
    returns (expected: UserRecord)
    requires UserBorrowDefined(amountBorrowed, interestRateMode, after, user, txTimestamp)
    ensures fresh(expected)
    ensures expected.Data() == UserAfterBorrow(amountBorrowed, interestRateMode, before, after, user, txTimestamp,
                                               currentTimestamp)
  {
    hide UserStableDebt, StableDebtBalance, RayMul, RayDiv, NormalizedDebt, LTokenBalance, UserStableRate;
    expected := new UserRecord();
    if interestRateMode == Stable {
      var stableDebtUntilTx := UserStableDebt(user, txTimestamp);
      expected.principalStableDebt := stableDebtUntilTx + amountBorrowed;
      expected.stableRateLastUpdated := txTimestamp;
      expected.stableBorrowRate := UserStableRate(stableDebtUntilTx, user.stableBorrowRate, amountBorrowed,
                                                  before.stableBorrowRate);
      expected.currentStableDebt := StableDebtBalance(expected.principalStableDebt, expected.stableBorrowRate,
                                                      txTimestamp, currentTimestamp);
      expected.scaledVariableDebt := user.scaledVariableDebt;
    } else {
      expected.scaledVariableDebt := before.scaledVariableDebt + RayDiv(amountBorrowed, after.variableBorrowIndex);
      expected.principalStableDebt := user.principalStableDebt;
      expected.stableBorrowRate := user.stableBorrowRate;
      expected.stableRateLastUpdated := user.stableRateLastUpdated;
      expected.currentStableDebt := UserStableDebt(user, currentTimestamp);
    }
    expected.currentVariableDebt := RayMul(expected.scaledVariableDebt,
                                           NormalizedDebt(after.variableBorrowRate, after.variableBorrowIndex,
                                                          after.lastUpdateTimestamp, currentTimestamp));
    expected.liquidityRate := after.liquidityRate;
    expected.usageAsCollateralEnabled := user.usageAsCollateralEnabled;
    expected.currentLTokenBalance := LTokenBalance(after, user, currentTimestamp);
    expected.scaledLTokenBalance := user.scaledLTokenBalance;
    expected.walletBalance := user.walletBalance + amountBorrowed;
  }

  // ---------- Repay ----------

  function UserRepayMoved(paid: int, mode: RateMode, r: Reserve, after: Reserve, u: User,
                          txTimestamp: int, currentTimestamp: int): User
    requires mode != Stable ==> after.variableBorrowIndex != 0
  {
    var stableDebt := UserStableDebt(u, currentTimestamp);
    if mode == Stable then
      var left := stableDebt - paid;
      u.(currentVariableDebt := VariableDebtBalance(r, u, currentTimestamp),
         principalStableDebt := left,
         currentStableDebt := left,
         stableBorrowRate := if left == 0 then 0 else u.stableBorrowRate,
         stableRateLastUpdated := if left == 0 then 0 else txTimestamp)
    else
      var scaled := u.scaledVariableDebt - RayDiv(paid, after.variableBorrowIndex);
      u.(currentStableDebt := u.principalStableDebt,
         principalStableDebt := stableDebt,
         scaledVariableDebt := scaled,
         currentVariableDebt := RayMul(scaled, after.variableBorrowIndex))
  }

  function UserAfterRepay(amount: int, mode: RateMode, r: Reserve, after: Reserve, u: User, user: string,
                          onBehalfOf: string,
                          txTimestamp: int, currentTimestamp: int): User
    requires mode != Stable ==> after.variableBorrowIndex != 0
  {
    var paid := RepayAmount(amount, mode, r, u, currentTimestamp);
    UserRepayMoved(paid, mode, r, after, u, txTimestamp, currentTimestamp).(
      liquidityRate := after.liquidityRate,
      currentLTokenBalance := LTokenBalance(r, u, txTimestamp),
      walletBalance := if user == onBehalfOf then u.walletBalance - paid else u.walletBalance)
  }

  /** The debts after repaying at a stable rate; repaying everything forgets the rate. */
  method SetUserStableRepaid(expected: UserRecord, userData: User, variableDebt: int, left: int, txTimestamp: int)
    modifies expected
    ensures expected.Data() == old(expected.Data()).(
              scaledVariableDebt := userData.scaledVariableDebt, currentVariableDebt := variableDebt,
              currentStableDebt := left, principalStableDebt := left,
              stableBorrowRate := if left == 0 then 0 else userData.stableBorrowRate,
              stableRateLastUpdated := if left == 0 then 0 else txTimestamp)
  {
    expected.scaledVariableDebt := userData.scaledVariableDebt;
    expected.currentVariableDebt := variableDebt;
    expected.currentStableDebt := left;
    expected.principalStableDebt := expected.currentStableDebt;
    if expected.currentStableDebt == 0 {
      expected.stableRateLastUpdated := 0;
      expected.stableBorrowRate := 0;
    } else {
      expected.stableBorrowRate := userData.stableBorrowRate;
      expected.stableRateLastUpdated := txTimestamp;
    }
  }

  /** The debts after repaying at a variable rate. */
  method SetUserVariableRepaid(expected: UserRecord, userData: User, index: int, stableDebt: int, paid: int)
    requires index != 0
    modifies expected
    ensures var scaled := userData.scaledVariableDebt - RayDiv(paid, index);
            expected.Data() == old(expected.Data()).(
              currentStableDebt := userData.principalStableDebt, principalStableDebt := stableDebt,
              stableBorrowRate := userData.stableBorrowRate, stableRateLastUpdated := userData.stableRateLastUpdated,
              scaledVariableDebt := scaled, currentVariableDebt := RayMul(scaled, index))
  {
    hide RayMul, RayDiv;
    expected.currentStableDebt := userData.principalStableDebt;
    expected.principalStableDebt := stableDebt;
    expected.stableBorrowRate := userData.stableBorrowRate;
    expected.stableRateLastUpdated := userData.stableRateLastUpdated;
    expected.scaledVariableDebt := userData.scaledVariableDebt - RayDiv(paid, index);
    expected.currentVariableDebt := RayMul(expected.scaledVariableDebt, index);
  }

  /** What a repayment leaves of the deposit side, and the payer's wallet. */
  method SetUserPaid(expected: UserRecord, before: Reserve, after: Reserve, userData: User, paidByUser: int,
                     txTimestamp: int)
    modifies expected
    ensures expected.Data() == old(expected.Data()).(
              liquidityRate := after.liquidityRate, usageAsCollateralEnabled := userData.usageAsCollateralEnabled,
              currentLTokenBalance := LTokenBalance(before, userData, txTimestamp),
              scaledLTokenBalance := userData.scaledLTokenBalance,
              walletBalance := userData.walletBalance - paidByUser)
  {
    hide LTokenBalance;
    expected.liquidityRate := after.liquidityRate;
    expected.usageAsCollateralEnabled := userData.usageAsCollateralEnabled;
    expected.currentLTokenBalance := LTokenBalance(before, userData, txTimestamp);
    expected.scaledLTokenBalance := userData.scaledLTokenBalance;
    expected.walletBalance := userData.walletBalance - paidByUser;
  }

  method CalcExpectedUserDataAfterRepay(totalRepaid: int, rateMode: RateMode, before: Reserve, after: Reserve,
                                        userData: User,
                                        user: string, onBehalfOf: string, txTimestamp: int, currentTimestamp: int)
    returns (expected: UserRecord)
    requires rateMode != Stable ==> after.variableBorrowIndex != 0
    ensures fresh(expected)
    ensures expected.Data() == UserAfterRepay(totalRepaid, rateMode, before, after, userData, user, onBehalfOf,
                                              txTimestamp, currentTimestamp)
  {
    hide UserStableDebt, RayMul, RayDiv, VariableDebtBalance, LTokenBalance;
    expected := new UserRecord();
    var variableDebt := VariableDebtBalance(before, userData, currentTimestamp);
    var stableDebt := UserStableDebt(userData, currentTimestamp);
    var paid := totalRepaid;
    if Abs(paid) == MAX_UINT_AMOUNT {
      paid := if rateMode == Stable then stableDebt else variableDebt;
    }
    if rateMode == Stable {
      SetUserStableRepaid(expected, userData, variableDebt, stableDebt - paid, txTimestamp);
    } else {
      SetUserVariableRepaid(expected, userData, after.variableBorrowIndex, stableDebt, paid);
    }
    var paidByUser := if user == onBehalfOf then paid else 0;
    SetUserPaid(expected, before, after, userData, paidByUser, txTimestamp);
  }

  // ---------- Collateral ----------

  method CalcExpectedUserDataAfterSetUseAsCollateral(useAsCollateral: bool, user: User) returns (expected: UserRecord)
    ensures fresh(expected) && expected.Data() == user.(usageAsCollateralEnabled := useAsCollateral)
  {
    expected := new UserRecord.Spread(user);
    expected.usageAsCollateralEnabled := useAsCollateral;
  }

  // ---------- Swapping the rate mode ----------

  predicate UserSwapDefined(r: Reserve, after: Reserve, u: User, mode: RateMode, txTimestamp: int) {
    if mode == Stable then after.variableBorrowIndex != 0
    else UserStableDebt(u, txTimestamp) + VariableDebtBalance(r, u, txTimestamp) != 0
  }

  function UserAfterSwapRateMode(r: Reserve, after: Reserve, u: User, mode: RateMode, txTimestamp: int): User
    requires UserSwapDefined(r, after, u, mode, txTimestamp)
  {
    var stableDebt := UserStableDebt(u, txTimestamp);
    var variableDebt := VariableDebtBalance(r, u, txTimestamp);
    var seen := u.(currentLTokenBalance := LTokenBalance(r, u, txTimestamp), liquidityRate := after.liquidityRate);
    if mode == Stable then
      var scaled := u.scaledVariableDebt + RayDiv(stableDebt, after.variableBorrowIndex);
      seen.(principalStableDebt := 0, currentStableDebt := 0, stableBorrowRate := 0, stableRateLastUpdated := 0,
            scaledVariableDebt := scaled, currentVariableDebt := RayMul(scaled, after.variableBorrowIndex))
    else
      seen.(principalStableDebt := u.currentStableDebt + variableDebt,
            currentStableDebt := u.currentStableDebt + variableDebt,
            stableBorrowRate := UserStableRate(stableDebt, u.stableBorrowRate, variableDebt, r.stableBorrowRate),
            stableRateLastUpdated := txTimestamp,
            scaledVariableDebt := 0, currentVariableDebt := 0)
  }

  method CalcExpectedUserDataAfterSwapRateMode(before: Reserve, after: Reserve, user: User, rateMode: RateMode,
                                               txTimestamp: int)
    returns (expected: UserRecord)
    requires UserSwapDefined(before, after, user, rateMode, txTimestamp)
    ensures fresh(expected) && expected.Data() == UserAfterSwapRateMode(before, after, user, rateMode, txTimestamp)
  {
    hide UserStableDebt, RayMul, RayDiv, VariableDebtBalance, LTokenBalance, UserStableRate;
    expected := new UserRecord.Spread(user);
    var stableDebtBalance := UserStableDebt(user, txTimestamp);
    var variableDebtBalance := VariableDebtBalance(before, user, txTimestamp);
    expected.currentLTokenBalance := LTokenBalance(before, user, txTimestamp);
    if rateMode == Stable {
      expected.principalStableDebt := 0;
      expected.currentStableDebt := 0;
      expected.stableBorrowRate := 0;
      expected.scaledVariableDebt := user.scaledVariableDebt + RayDiv(stableDebtBalance, after.variableBorrowIndex);
      expected.currentVariableDebt := RayMul(expected.scaledVariableDebt, after.variableBorrowIndex);
      expected.stableRateLastUpdated := 0;
    } else {
      expected.currentStableDebt := user.currentStableDebt + variableDebtBalance;
      expected.principalStableDebt := expected.currentStableDebt;
      expected.stableBorrowRate := UserStableRate(stableDebtBalance, user.stableBorrowRate, variableDebtBalance,
                                                  before.stableBorrowRate);
      expected.stableRateLastUpdated := txTimestamp;
      expected.scaledVariableDebt := 0;
      expected.currentVariableDebt := 0;
    }
    expected.liquidityRate := after.liquidityRate;
  }

  // ---------- Rebalancing a stable rate ----------

  function UserAfterRebalance(r: Reserve, after: Reserve, u: User, txTimestamp: int): User {
    var stableDebt := UserStableDebt(u, txTimestamp);
    u.(principalStableDebt := stableDebt, currentStableDebt := stableDebt,
       currentVariableDebt := VariableDebtBalance(r, u, txTimestamp),
       stableRateLastUpdated := txTimestamp,
       stableBorrowRate := after.averageStableBorrowRate,
       liquidityRate := after.liquidityRate,
       currentLTokenBalance := LTokenBalance(r, u, txTimestamp))
  }

  method CalcExpectedUserDataAfterStableRateRebalance(before: Reserve, after: Reserve, user: User, txTimestamp: int)
    returns (expected: UserRecord)
    ensures fresh(expected) && expected.Data() == UserAfterRebalance(before, after, user, txTimestamp)
  {
    hide UserStableDebt, VariableDebtBalance, LTokenBalance;
    expected := new UserRecord.Spread(user);
    expected.principalStableDebt := user.principalStableDebt;
    expected.principalStableDebt := UserStableDebt(user, txTimestamp);
    expected.currentStableDebt := expected.principalStableDebt;
    expected.currentVariableDebt := VariableDebtBalance(before, user, txTimestamp);
    expected.stableRateLastUpdated := txTimestamp;
    expected.stableBorrowRate := after.averageStableBorrowRate;
    expected.liquidityRate := after.liquidityRate;
    expected.currentLTokenBalance := LTokenBalance(before, user, txTimestamp);
  }
}
