/** The reserve and user records (test-suites/test-palmy/helpers/utils/interfaces/index.ts): as
    values, which the step functions only read, and as mutable records, which they fill. */
module Records {

  datatype RateMode = NoRate | Stable | Variable

  /** 2^256 - 1, the amount that stands for "everything". */
  const MAX_UINT_AMOUNT: int := 115792089237316195423570985008687907853269984665640564039457584007913129639935

  datatype Reserve = Reserve(
    totalLiquidity: int,
    availableLiquidity: int,
    totalStableDebt: int,
    totalVariableDebt: int,
    principalStableDebt: int,
    scaledVariableDebt: int,
    averageStableBorrowRate: int,
    variableBorrowRate: int,
    stableBorrowRate: int,
    utilizationRate: int,
    liquidityIndex: int,
    variableBorrowIndex: int,
    marketStableRate: int,
    lastUpdateTimestamp: int,
    totalStableDebtLastUpdated: int,
    liquidityRate: int)

  datatype User = User(
    scaledLTokenBalance: int,
    currentLTokenBalance: int,
    currentStableDebt: int,
    currentVariableDebt: int,
    principalStableDebt: int,
    scaledVariableDebt: int,
    liquidityRate: int,
    stableBorrowRate: int,
    stableRateLastUpdated: int,
    usageAsCollateralEnabled: bool,
    walletBalance: int)

  /** A reserve record under construction. In a fresh one only the accessory fields are set,
      which no action computes; the others are arbitrary. */
  class ReserveRecord {
    var totalLiquidity: int
    var availableLiquidity: int
    var totalStableDebt: int
    var totalVariableDebt: int
    var principalStableDebt: int
    var scaledVariableDebt: int
    var averageStableBorrowRate: int
    var variableBorrowRate: int
    var stableBorrowRate: int
    var utilizationRate: int
    var liquidityIndex: int
    var variableBorrowIndex: int
    var marketStableRate: int
    var lastUpdateTimestamp: int
    var totalStableDebtLastUpdated: int
    var liquidityRate: int

    constructor (marketStableRate: int, lastUpdateTimestamp: int, totalStableDebtLastUpdated: int)
      ensures this.marketStableRate == marketStableRate
      ensures this.lastUpdateTimestamp == lastUpdateTimestamp
      ensures this.totalStableDebtLastUpdated == totalStableDebtLastUpdated
    {
      this.marketStableRate := marketStableRate;
      this.lastUpdateTimestamp := lastUpdateTimestamp;
      this.totalStableDebtLastUpdated := totalStableDebtLastUpdated;
    }

    ghost function Data(): Reserve
      reads this
    {
      Reserve(totalLiquidity, availableLiquidity, totalStableDebt, totalVariableDebt, principalStableDebt,
              scaledVariableDebt, averageStableBorrowRate, variableBorrowRate, stableBorrowRate, utilizationRate,
              liquidityIndex, variableBorrowIndex, marketStableRate, lastUpdateTimestamp,
              totalStableDebtLastUpdated, liquidityRate)
    }
  }

  /** A user record under construction. */
  class UserRecord {
    var scaledLTokenBalance: int
    var currentLTokenBalance: int
    var currentStableDebt: int
    var currentVariableDebt: int
    var principalStableDebt: int
    var scaledVariableDebt: int
    var liquidityRate: int
    var stableBorrowRate: int
    var stableRateLastUpdated: int
    var usageAsCollateralEnabled: bool
    var walletBalance: int

    constructor () {
    }

    /** A copy of an existing record, field by field. */
    constructor Spread(user: User)
      ensures Data() == user
    {
      scaledLTokenBalance := user.scaledLTokenBalance;
      currentLTokenBalance := user.currentLTokenBalance;
      currentStableDebt := user.currentStableDebt;
      currentVariableDebt := user.currentVariableDebt;
      principalStableDebt := user.principalStableDebt;
      scaledVariableDebt := user.scaledVariableDebt;
      liquidityRate := user.liquidityRate;
      stableBorrowRate := user.stableBorrowRate;
      stableRateLastUpdated := user.stableRateLastUpdated;
      usageAsCollateralEnabled := user.usageAsCollateralEnabled;
      walletBalance := user.walletBalance;
    }

    ghost function Data(): User
      reads this
    {
      User(scaledLTokenBalance, currentLTokenBalance, currentStableDebt, currentVariableDebt, principalStableDebt,
           scaledVariableDebt, liquidityRate, stableBorrowRate, stableRateLastUpdated, usageAsCollateralEnabled,
           walletBalance)
    }
  }
}
