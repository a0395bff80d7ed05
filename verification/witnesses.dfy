/** One run from an initialized reserve after which each departure of the predictions from what they
    are for can be seen at concrete amounts (test-suites/test-palmy/helpers/utils/calculations.ts).
    The rates are those of the test reserve for DAI (markets/palmy/rateStrategies.ts), with the
    market rate of the stablecoins (markets/palmy/commons.ts). */
module Witnesses {
  import opened FixedPoint
  import opened Interest
  import opened Rates
  import opened Records
  import opened Balances
  import opened ReserveSteps
  import opened UserSteps
  import opened Soundness
  import opened Runs
  import opened Conservation
  import opened Coverage
  import opened DebtShares
  import opened RateMoves
  import opened StableDebtLaws

  /** Optimal utilization 80 percent, slopes 4 and 75 percent (variable), 2 and 75 percent (stable),
      reserve factor 10 percent. */
  const DAI: ReserveParams := RawParams(800_000_000_000_000_000_000_000_000, 0,
                                        40_000_000_000_000_000_000_000_000, 750_000_000_000_000_000_000_000_000,
                                        20_000_000_000_000_000_000_000_000, 750_000_000_000_000_000_000_000_000, 1000)

  /** 3.9 percent. */
  const MARKET_RATE: int := 39_000_000_000_000_000_000_000_000

  // ---------- The run ----------

  /** User 0 lends 100; user 1 borrows 60 at the stable rate; a second later user 2 borrows 30 at the
      stable and 10 at the variable rate, which leaves no cash. */
  const OPENING: seq<Event> := [SUPPLY, LOAN, SECOND_LOAN, LAST_LOAN]

  const SUPPLY: Event := Event(0, Deposit(100 * WAD), 1, 1)
  const LOAN: Event := Event(1, Borrow(60 * WAD, Stable), 1, 1)
  const SECOND_LOAN: Event := Event(2, Borrow(30 * WAD, Stable), 2, 2)
  const LAST_LOAN: Event := Event(2, Borrow(10 * WAD, Variable), 2, 2)

  const SUPPLIED: Reserve := Reserve(
    100_000_000_000_000_000_000, 100_000_000_000_000_000_000, 0, 0, 0, 0, 0, 0,
    39_000_000_000_000_000_000_000_000, 0, 1_000_000_000_000_000_000_000_000_000,
    1_000_000_000_000_000_000_000_000_000, 39_000_000_000_000_000_000_000_000, 1, 0, 0)
  const LENT: Reserve := Reserve(
    100_000_000_000_000_000_000, 40_000_000_000_000_000_000, 60_000_000_000_000_000_000, 0,
    60_000_000_000_000_000_000, 0, 39_000_000_000_000_000_000_000_000,
    30_000_000_000_000_000_000_000_000, 54_000_000_000_000_000_000_000_000,
    600_000_000_000_000_000_000_000_000, 1_000_000_000_000_000_000_000_000_000,
    1_000_000_000_000_000_000_000_000_000, 39_000_000_000_000_000_000_000_000, 1, 1,
    21_060_000_000_000_000_000_000_000)
  const LENT_TWICE: Reserve := Reserve(
    100_000_000_074_200_913_242, 10_000_000_000_000_000_000, 90_000_000_074_200_913_242, 0,
    90_000_000_074_200_913_242, 0, 43_999_999_995_877_727_045_509_737,
    415_000_000_278_253_424_451_033_419, 434_000_000_278_253_424_451_033_419,
    900_000_000_074_200_913_186_942_245, 1_000_000_000_667_808_219_178_082_191,
    1_000_000_000_000_000_000_000_000_000, 39_000_000_000_000_000_000_000_000, 2, 2,
    35_639_999_999_599_315_068_790_511)
  const LENT_OUT: Reserve := Reserve(
    100_000_000_074_200_913_242, 0, 90_000_000_074_200_913_242, 10_000_000_000_000_000_000,
    90_000_000_074_200_913_242, 10_000_000_000_000_000_000, 43_999_999_995_877_727_045_509_737,
    790_000_000_000_000_000_000_000_000, 809_000_000_000_000_000_000_000_000,
    1_000_000_000_000_000_000_000_000_000, 1_000_000_000_667_808_219_178_082_191,
    1_000_000_000_000_000_000_000_000_000, 39_000_000_000_000_000_000_000_000, 2, 2,
    106_739_999_946_842_465_792_874_575)
  const SWAPPED: Reserve := Reserve(
    100_000_003_834_982_533_711, 0, 30_000_000_513_698_633_892, 70_000_003_321_283_899_819,
    30_000_000_513_698_633_892, 69_999_985_785_770_516_818, 53_999_999_952_435_312_255_751_494,
    790_000_000_000_000_000_000_000_000, 809_000_000_000_000_000_000_000_000,
    1_000_000_000_000_000_000_000_000_000, 1_000_000_034_514_840_188_395_584_433,
    1_000_000_250_507_384_911_013_205_795, 39_000_000_000_000_000_000_000_000, 12, 12,
    512_280_004_205_294_912_906_713_466)

  const NOBODY: User := User(0, 0, 0, 0, 0, 0, 0, 0, 0, false, 0)
  const LENDER: User := User(
    100_000_000_000_000_000_000, 100_000_000_000_000_000_000, 0, 0, 0, 0, 0, 0, 0, true,
    -100_000_000_000_000_000_000)
  const FIRST: User := User(
    0, 0, 60_000_000_000_000_000_000, 0, 60_000_000_000_000_000_000, 0,
    21_060_000_000_000_000_000_000_000, 39_000_000_000_000_000_000_000_000, 1, false,
    60_000_000_000_000_000_000)
  const SECOND_STABLE: User := User(
    0, 0, 30_000_000_000_000_000_000, 0, 30_000_000_000_000_000_000, 0,
    35_639_999_999_599_315_068_790_511, 54_000_000_000_000_000_000_000_000, 2, false,
    30_000_000_000_000_000_000)
  const SECOND: User := User(
    0, 0, 30_000_000_000_000_000_000, 10_000_000_000_000_000_000, 30_000_000_000_000_000_000,
    10_000_000_000_000_000_000, 106_739_999_946_842_465_792_874_575,
    54_000_000_000_000_000_000_000_000, 2, false, 40_000_000_000_000_000_000)
  const FIRST_SWAPPED: User := User(
    0, 0, 0, 60_000_000_816_210_050_709, 0, 59_999_985_785_770_516_818,
    512_280_004_205_294_912_906_713_466, 0, 0, false, 60_000_000_000_000_000_000)

  const START: System := System(InitialReserve(MARKET_RATE), [NOBODY, NOBODY, NOBODY], 0)
  const AFTER_SUPPLY: System := System(SUPPLIED, [LENDER, NOBODY, NOBODY], 1)
  const AFTER_LOAN: System := System(LENT, [LENDER, FIRST, NOBODY], 1)
  const AFTER_SECOND_LOAN: System := System(LENT_TWICE, [LENDER, FIRST, SECOND_STABLE], 2)
  const OPEN: System := System(LENT_OUT, [LENDER, FIRST, SECOND], 2)

  // ---------- Its steps, on the reserve ----------

  /** A record priced at its own totals, from the values of the curve. */
  lemma PricedAs(r: Reserve, overall: int)
    requires Priceable(r)
    requires UtilizationRate(r.totalStableDebt, r.totalVariableDebt, r.totalLiquidity) == r.utilizationRate
    requires VariableRate(DAI, r.utilizationRate) == r.variableBorrowRate
    requires StableRate(DAI, r.marketStableRate, r.utilizationRate) == r.stableBorrowRate
    requires OverallBorrowRate(r.totalStableDebt, r.totalVariableDebt, r.variableBorrowRate,
                               r.averageStableBorrowRate) == overall
    requires LiquidityRate(DAI, overall, r.utilizationRate) == r.liquidityRate
    ensures Repriced(r, DAI) == r
  {
    hide UtilizationRate, VariableRate, StableRate, OverallBorrowRate, LiquidityRate;
  }

  lemma LentPriced()
    ensures Repriced(LENT, DAI) == LENT
  {
    PricedAs(LENT, 39_000_000_000_000_000_000_000_000);
  }

  lemma LentTwicePriced()
    ensures Repriced(LENT_TWICE, DAI) == LENT_TWICE
  {
    PricedAs(LENT_TWICE, 43_999_999_995_877_727_045_509_737);
  }

  lemma LentOutPriced()
    ensures Repriced(LENT_OUT, DAI) == LENT_OUT
  {
    PricedAs(LENT_OUT, 118_599_999_940_936_073_103_193_972);
  }

  /** Pricing does not look at the rates in the record. */
  lemma RatesForgotten(r: Reserve, other: Reserve, p: ReserveParams)
    requires Priceable(r)
    ensures Repriced(WithRatesOf(r, other), p) == Repriced(r, p)
  {
    hide UtilizationRate, RatesFor;
  }

  function WithRatesOf(r: Reserve, other: Reserve): Reserve {
    r.(utilizationRate := other.utilizationRate, liquidityRate := other.liquidityRate,
       stableBorrowRate := other.stableBorrowRate, variableBorrowRate := other.variableBorrowRate)
  }

  function FirstDeposited(amount: int, market: int, tx: int, p: ReserveParams): Reserve {
    InitialReserve(market).(totalLiquidity := amount, availableLiquidity := amount, lastUpdateTimestamp := tx,
                            stableBorrowRate := market, variableBorrowRate := p.baseVariableBorrowRate)
  }

  /** The first deposit into an initialized reserve is priced at the base rates. */
  lemma FirstDeposit(amount: int, market: int, tx: int, p: ReserveParams)
    ensures Priceable(DepositMoved(amount, InitialReserve(market), tx))
    ensures AfterDeposit(amount, InitialReserve(market), tx, p)
         == FirstDeposited(amount, market, tx, p)
  {
    hide LiquidityIndex, VariableBorrowIndex, TotalStableDebt, RayMul, Kinked;
    NothingYet(InitialReserve(market), tx);
    KinkedCorners(market, p.stableRateSlope1, p.stableRateSlope2, p.optimalUtilizationRate);
    KinkedCorners(p.baseVariableBorrowRate, p.variableRateSlope1, p.variableRateSlope2, p.optimalUtilizationRate);
    RayMulZero(0);
    assert PercentMul(0, PERCENTAGE_FACTOR - p.reserveFactor) == 0;
  }

  /** A reserve without debts accrues nothing. */
  lemma NothingYet(r: Reserve, tx: int)
    requires r.utilizationRate == 0 && r.totalVariableDebt == 0 && r.principalStableDebt == 0
         && r.scaledVariableDebt == 0
    ensures LiquidityIndex(r, tx) == r.liquidityIndex && VariableBorrowIndex(r, tx) == r.variableBorrowIndex
    ensures StableDebtUntil(r, tx) == 0
    ensures RayMul(0, r.variableBorrowIndex) == 0
  {
    RayMulZero(CompoundedInterest(r.averageStableBorrowRate, tx, r.totalStableDebtLastUpdated));
    RayMulZero(r.variableBorrowIndex);
  }

  lemma LendValues()
    ensures AverageStableRate(0, 0, 60 * WAD, MARKET_RATE) == MARKET_RATE
  {
  }

  lemma LendReserve()
    ensures Sound(SUPPLIED, 1) && BorrowDefined(60 * WAD, Stable, SUPPLIED, 1, 1, DAI)
    ensures AfterBorrow(60 * WAD, Stable, SUPPLIED, 1, 1, DAI) == LENT
  {
    hide RayMul, RayDiv, LiquidityIndex, VariableBorrowIndex, TotalStableDebt, StableDebtBalance, UtilizationRate,
      RatesFor, AverageStableRate, NormalizedDebt, Solvent, AfterBorrow, BorrowDefined, Repriced;
    NothingYet(SUPPLIED, 1);
    LendValues();
    BorrowSound(60 * WAD, Stable, SUPPLIED, 1, 1, DAI);
    BorrowWithoutDelay(60 * WAD, Stable, SUPPLIED, 1, DAI);
    assert BorrowMoved(60 * WAD, Stable, SUPPLIED, 1) == WithRatesOf(LENT, SUPPLIED);
    RatesForgotten(LENT, SUPPLIED, DAI);
    LentPriced();
  }

  lemma LendAgainValues()
    ensures LiquidityIndex(LENT, 2) == LENT_TWICE.liquidityIndex && VariableBorrowIndex(LENT, 2) == RAY
         && RayMul(0, RAY) == 0
    ensures StableDebtUntil(LENT, 2) == LENT_TWICE.principalStableDebt - 30 * WAD
    ensures AverageStableRate(LENT.averageStableBorrowRate, LENT_TWICE.principalStableDebt - 30 * WAD, 30 * WAD,
                              LENT.stableBorrowRate)
         == LENT_TWICE.averageStableBorrowRate
  {
  }

  lemma LendAgainReserve()
    ensures Sound(LENT, 2) && BorrowDefined(30 * WAD, Stable, LENT, 2, 2, DAI)
    ensures AfterBorrow(30 * WAD, Stable, LENT, 2, 2, DAI) == LENT_TWICE
  {
    hide RayMul, RayDiv, LiquidityIndex, VariableBorrowIndex, TotalStableDebt, StableDebtBalance, UtilizationRate,
      RatesFor, AverageStableRate, NormalizedDebt, Solvent, AfterBorrow, BorrowDefined, Repriced;
    LendAgainValues();
    BorrowSound(30 * WAD, Stable, LENT, 2, 2, DAI);
    BorrowWithoutDelay(30 * WAD, Stable, LENT, 2, DAI);
    assert BorrowMoved(30 * WAD, Stable, LENT, 2) == WithRatesOf(LENT_TWICE, LENT);
    RatesForgotten(LENT_TWICE, LENT, DAI);
    LentTwicePriced();
  }

  lemma LendRestValues()
    ensures LiquidityIndex(LENT_TWICE, 2) == LENT_OUT.liquidityIndex && VariableBorrowIndex(LENT_TWICE, 2) == RAY
    ensures RayDiv(10 * WAD, RAY) == 10 * WAD && RayMul(10 * WAD, RAY) == 10 * WAD
    ensures StableDebtBalance(LENT_TWICE.principalStableDebt, LENT_TWICE.averageStableBorrowRate, 2, 2)
         == LENT_OUT.totalStableDebt
  {
  }

  // ---------- Its steps, on the users ----------

  lemma SupplyUser()
    ensures FirstDeposited(100 * WAD, MARKET_RATE, 1, DAI) == SUPPLIED
    ensures UserAfterDeposit(100 * WAD, START.reserve, SUPPLIED, NOBODY, 1) == LENDER
  {
  }

  lemma LendUser()
    ensures UserAfterBorrow(60 * WAD, Stable, SUPPLIED, LENT, NOBODY, 1, 1) == FIRST
  {
  }

  lemma LendAgainUser()
    ensures UserAfterBorrow(30 * WAD, Stable, LENT, LENT_TWICE, NOBODY, 2, 2) == SECOND_STABLE
  {
  }

  lemma LendRestUser()
    ensures UserAfterBorrow(10 * WAD, Variable, LENT_TWICE, LENT_OUT, SECOND_STABLE, 2, 2) == SECOND
  {
  }

  // ---------- The whole run ----------

  /** The first deposit into an initialized reserve is priced at the base rates. */
  lemma FirstDepositStep(users: seq<User>, k: nat, amount: int, market: int, tx: int, p: ReserveParams)
    requires k < |users| && amount >= 0 && market >= 0 && tx > 0
    ensures var s, e := System(InitialReserve(market), users, 0), Event(k, Deposit(amount), tx, tx);
            && Sound(s.reserve, 0) && Enabled(s, e)
            && var after := FirstDeposited(amount, market, tx, p);
               Step(s, e, p) == System(after, users[k := UserAfterDeposit(amount, s.reserve, after, users[k], tx)], tx)
  {
    hide AfterDeposit, UserAfterDeposit, DepositMoved, Priceable;
    FirstDeposit(amount, market, tx, p);
  }

  lemma LoanStep()
    ensures Sound(SUPPLIED, 1) && Enabled(AFTER_SUPPLY, LOAN)
    ensures Step(AFTER_SUPPLY, LOAN, DAI) == AFTER_LOAN
  {
    hide AfterBorrow, UserAfterBorrow, BorrowDefined;
    LendReserve();
    LendUser();
  }

  lemma SecondLoanStep()
    ensures Sound(LENT, 1) && Enabled(AFTER_LOAN, SECOND_LOAN)
    ensures Step(AFTER_LOAN, SECOND_LOAN, DAI) == AFTER_SECOND_LOAN
  {
    hide AfterBorrow, UserAfterBorrow, BorrowDefined;
    LendAgainReserve();
    LendAgainUser();
  }

  lemma LastLoanStep()
    ensures Sound(LENT_TWICE, 2) && Enabled(AFTER_SECOND_LOAN, LAST_LOAN)
    ensures Step(AFTER_SECOND_LOAN, LAST_LOAN, DAI) == OPEN
  {
    hide RayMul, RayDiv, LiquidityIndex, VariableBorrowIndex, TotalStableDebt, StableDebtBalance, UtilizationRate,
      RatesFor, AverageStableRate, NormalizedDebt, Solvent, AfterBorrow, BorrowDefined, Repriced, UserAfterBorrow;
    LendRestValues();
    BorrowSound(10 * WAD, Variable, LENT_TWICE, 2, 2, DAI);
    BorrowWithoutDelay(10 * WAD, Variable, LENT_TWICE, 2, DAI);
    assert BorrowMoved(10 * WAD, Variable, LENT_TWICE, 2) == WithRatesOf(LENT_OUT, LENT_TWICE);
    RatesForgotten(LENT_OUT, LENT_TWICE, DAI);
    LentOutPriced();
    LendRestUser();
  }

  lemma RunStep(s: System, e: Event, rest: seq<Event>, p: ReserveParams)
    requires Sound(s.reserve, s.clock) && Enabled(s, e) && EnabledRun(Step(s, e, p), rest, p)
    ensures EnabledRun(s, [e] + rest, p)
    ensures Run(s, [e] + rest, p) == Run(Step(s, e, p), rest, p)
  {
    assert ([e] + rest)[1..] == rest;
    hide Sound, Enabled, Step;
  }

  /** The opening is a run of enabled events and ends with all cash lent out. */
  lemma OpeningRun()
    ensures Sound(START.reserve, START.clock) && Sound(OPEN.reserve, OPEN.clock)
    ensures EnabledRun(START, OPENING, DAI) && Run(START, OPENING, DAI) == OPEN
  {
    hide Step, Enabled, Run, EnabledRun, Sound, UserAfterDeposit, FirstDeposited, InitialReserve;
    FirstDepositStep(START.users, 0, 100 * WAD, MARKET_RATE, 1, DAI);
    SupplyUser();
    assert START.users[0 := LENDER] == AFTER_SUPPLY.users;
    LoanStep();
    SecondLoanStep();
    LastLoanStep();
    RunNothing(OPEN, DAI);
    RunStep(AFTER_SECOND_LOAN, LAST_LOAN, [], DAI);
    RunStep(AFTER_LOAN, SECOND_LOAN, [LAST_LOAN] + [], DAI);
    RunStep(AFTER_SUPPLY, LOAN, [SECOND_LOAN] + ([LAST_LOAN] + []), DAI);
    RunStep(START, SUPPLY, [LOAN] + ([SECOND_LOAN] + ([LAST_LOAN] + [])), DAI);
    assert [SUPPLY] + ([LOAN] + ([SECOND_LOAN] + ([LAST_LOAN] + []))) == OPENING;
  }

  lemma RunNothing(s: System, p: ReserveParams)
    requires Sound(s.reserve, s.clock)
    ensures EnabledRun(s, [], p) && Run(s, [], p) == s
  {
  }

  // ---------- Ten seconds later ----------

  /** A compounded factor from its rounded powers and binomial coefficients. */
  lemma CompoundedValue(rate: int, t: nat, last: int, r: int, p2: int, p3: int, c2: int, c3: int)
    requires rate >= 0 && RatePerSecond(rate) == r && RayMul(r, r) == p2 && RayMul(p2, r) == p3
    requires 2 * c2 == t * (t - 1) && 6 * c3 == t * (t - 1) * (t - 2)
    ensures CompoundedInterest(rate, last + t, last) == RAY + r * t + c2 * p2 + c3 * p3
  {
    hide CompoundedInterest, RayMul, RatePerSecond, Choose;
    CompoundedClosedForm(rate, t, last);
    ChooseSmall(t);
  }

  lemma FactorsLater()
    ensures CompoundedInterest(LENT_OUT.variableBorrowRate, 12, 2) == 1_000_000_250_507_384_911_013_205_795
    ensures CompoundedInterest(LENT_OUT.variableBorrowRate, 13, 2) == 1_000_000_275_558_126_853_581_511_203
    ensures CompoundedInterest(LENT_OUT.averageStableBorrowRate, 12, 2) == 1_000_000_013_952_308_559_149_364_505
    ensures CompoundedInterest(FIRST.stableBorrowRate, 12, 1) == 1_000_000_013_603_500_845_151_022_938
    ensures CompoundedInterest(SECOND.stableBorrowRate, 12, 2) == 1_000_000_017_123_287_803_176_018_625
  {
    hide CompoundedInterest;
    CompoundedValue(LENT_OUT.variableBorrowRate, 10, 2, 25_050_735_667_174_023_338, 627_539_357_467, 15_720, 45, 120);
    CompoundedValue(LENT_OUT.variableBorrowRate, 11, 2, 25_050_735_667_174_023_338, 627_539_357_467, 15_720, 55, 165);
    CompoundedValue(LENT_OUT.averageStableBorrowRate, 10, 2, 1_395_230_847_154_925_388, 1_946_669_117, 3, 45, 120);
    CompoundedValue(FIRST.stableBorrowRate, 11, 1, 1_236_681_887_366_818_873, 1_529_382_091, 2, 55, 165);
    CompoundedValue(SECOND.stableBorrowRate, 10, 2, 1_712_328_767_123_287_671, 2_932_069_807, 5, 45, 120);
  }

  lemma ValuesLater()
    ensures LiquidityIndex(LENT_OUT, 12) == SWAPPED.liquidityIndex
    ensures VariableBorrowIndex(LENT_OUT, 12) == SWAPPED.variableBorrowIndex
    ensures StableDebtUntil(LENT_OUT, 12) == 90_000_001_329_908_684_601
    ensures UserStableDebt(FIRST, 12) == 60_000_000_816_210_050_709
    ensures UserStableDebt(SECOND, 12) == 30_000_000_513_698_634_095
    ensures VariableDebtBalance(LENT_OUT, SECOND, 12) == 10_000_002_505_073_849_110
    ensures VariableDebtBalance(LENT_OUT, SECOND, 13) == 10_000_002_755_581_268_536
    ensures VariableDebtBalance(LENT_OUT, FIRST, 12) == 0
    ensures RayMul(LENT_OUT.scaledVariableDebt, SWAPPED.variableBorrowIndex) == 10_000_002_505_073_849_110
  {
    hide CompoundedInterest;
    FactorsLater();
  }

  // ---------- The departures ----------

  /** A deposit of one unit adds to a liquidity that misses ten seconds of interest: it records more
      than full utilization, and its prices do not match its totals. */
  lemma DepositPastFullUtilization()
    ensures var e := Event(0, Deposit(1), 12, 12);
            && Sound(OPEN.reserve, 12) && Enabled(OPEN, e)
            && Step(OPEN, e, DAI).reserve.utilizationRate > RAY
            && !ConsistentAt(Step(OPEN, e, DAI).reserve, 12, DAI)
  {
    hide RayMul, LiquidityIndex, VariableBorrowIndex, TotalStableDebt, AfterDeposit, UserAfterDeposit, Priceable,
      DepositMoved, ConsistentAt;
    ValuesLater();
    DepositUtilizationIff(1, LENT_OUT, 12, DAI);
    StepConsistentIff(LENT_OUT, LENDER, Event(0, Deposit(1), 12, 12), DAI);
  }

  /** A deposit by the stable borrower loses all of that debt from the user's record. */
  lemma DepositErasesDebt()
    ensures var e := Event(1, Deposit(1), 12, 12);
            && Sound(OPEN.reserve, 12) && Enabled(OPEN, e)
            && UserStableDebt(FIRST, 12) == 60_000_000_816_210_050_709
            && UserStableDebt(Step(OPEN, e, DAI).users[1], 12) == 0
            && Step(OPEN, e, DAI).users[1].currentStableDebt == 60_000_000_816_210_050_709
  {
    hide LiquidityIndex, VariableBorrowIndex, TotalStableDebt, ReserveStep, CompoundedInterest, ScaledLTokenBalance,
      LTokenBalance, VariableDebtBalance;
    ValuesLater();
    RayMulZero(CompoundedInterest(FIRST.stableBorrowRate, 12, 1));
  }

  /** Repaying half of the variable debt counts ten seconds of stable interest twice for the user, and
      prices the reserve with the stable debt of ten seconds ago. */
  lemma RepaymentMisbooks()
    ensures var e := Event(2, Repay(5 * WAD, Variable), 12, 12);
            && Sound(OPEN.reserve, 12) && Enabled(OPEN, e)
            && UserStableDebt(Step(OPEN, e, DAI).users[2], 12) != UserStableDebt(SECOND, 12)
            && !ConsistentAt(Step(OPEN, e, DAI).reserve, 12, DAI)
  {
    hide RayMul, RayDiv, LiquidityIndex, VariableBorrowIndex, TotalStableDebt, StableDebtBalance,
      VariableDebtBalance, LTokenBalance,
      ReserveStep, ConsistentAt;
    var e := Event(2, Repay(5 * WAD, Variable), 12, 12);
    ValuesLater();
    RepayWithinDebt(5 * WAD, LENT_OUT, 12);
    StepConsistentIff(LENT_OUT, SECOND, e, DAI);
    RepayKeepsStableDebtIff(5 * WAD, Variable, LENT_OUT, ReserveStep(LENT_OUT, SECOND, e, DAI), SECOND, 12, 12);
  }

  /** A maximal repayment observed a second after its inclusion: the payer is charged a second of
      interest that the reserve never receives, and is left with a negative scaled debt. */
  lemma DelayedPayoffDrifts()
    ensures var e := Event(2, Repay(MAX_UINT_AMOUNT, Variable), 12, 13);
            && Sound(OPEN.reserve, 12) && Enabled(OPEN, e)
            && TotalCash(Step(OPEN, e, DAI)) == TotalCash(OPEN) - 250_507_419_426
            && Step(OPEN, e, DAI).users[2].scaledVariableDebt < 0
  {
    hide RayMul, RayDiv, LiquidityIndex, VariableBorrowIndex, TotalStableDebt, StableDebtBalance,
      VariableDebtBalance, LTokenBalance,
      TotalCash, RepayDefined;
    var e := Event(2, Repay(MAX_UINT_AMOUNT, Variable), 12, 13);
    ValuesLater();
    RepayWithinDebt(VariableDebtBalance(LENT_OUT, SECOND, 12), LENT_OUT, 12);
    StepCash(OPEN, e, DAI);
    MaxRepayClears(MAX_UINT_AMOUNT, LENT_OUT, SECOND, 12, 13, DAI);
  }

  /** Swapping the variable debt to stable drops ten seconds of the user's stable interest, and
      averages the offered rate over the stable total of ten seconds ago. */
  lemma SwapForgetsInterest()
    ensures var e := Event(2, SwapRateMode(Variable), 12, 12);
            && Sound(OPEN.reserve, 12) && Enabled(OPEN, e)
            && UserStableDebt(Step(OPEN, e, DAI).users[2], 12)
               == UserStableDebt(SECOND, 12) + VariableDebtBalance(LENT_OUT, SECOND, 12) - 513_698_634_095
            && Step(OPEN, e, DAI).reserve.averageStableBorrowRate
               > AverageStableRate(LENT_OUT.averageStableBorrowRate, StableDebtUntil(LENT_OUT, 12),
                                   VariableDebtBalance(LENT_OUT, SECOND, 12), LENT_OUT.stableBorrowRate)
  {
    hide RayMul, RayDiv, LiquidityIndex, VariableBorrowIndex, TotalStableDebt, VariableDebtBalance, LTokenBalance,
      CompoundedInterest, AverageStableRate, UserStableRate;
    ValuesLater();
    UnscaledLater();
    AveragesLater();
  }

  lemma UnscaledLater()
    ensures RayDiv(10_000_002_505_073_849_110, SWAPPED.variableBorrowIndex) == LENT_OUT.scaledVariableDebt
    ensures RayDiv(60_000_000_816_210_050_709, SWAPPED.variableBorrowIndex)
         == SWAPPED.scaledVariableDebt - LENT_OUT.scaledVariableDebt
    ensures RayMul(SWAPPED.scaledVariableDebt, SWAPPED.variableBorrowIndex) == SWAPPED.totalVariableDebt
    ensures RayMul(FIRST_SWAPPED.scaledVariableDebt, SWAPPED.variableBorrowIndex) == FIRST_SWAPPED.currentVariableDebt
  {
  }

  lemma AveragesLater()
    ensures AverageStableRate(LENT_OUT.averageStableBorrowRate, LENT_OUT.totalStableDebt,
                              10_000_002_505_073_849_110, LENT_OUT.stableBorrowRate)
          > AverageStableRate(LENT_OUT.averageStableBorrowRate, 90_000_001_329_908_684_601,
                              10_000_002_505_073_849_110, LENT_OUT.stableBorrowRate)
    ensures AverageStableRate(LENT_OUT.averageStableBorrowRate, 90_000_001_329_908_684_601,
                              -60_000_000_816_210_050_709, FIRST.stableBorrowRate)
         == SWAPPED.averageStableBorrowRate
  {
  }

  lemma SwappedPriced()
    ensures Repriced(SWAPPED, DAI) == SWAPPED
  {
    PricedAs(SWAPPED, 569_200_004_672_549_903_229_681_629);
  }

  lemma FirstSwap()
    ensures var e := Event(1, SwapRateMode(Stable), 12, 12);
            && Sound(OPEN.reserve, 12) && Enabled(OPEN, e)
            && Step(OPEN, e, DAI) == System(SWAPPED, [LENDER, FIRST_SWAPPED, SECOND], 12)
  {
    hide RayMul, RayDiv, LiquidityIndex, VariableBorrowIndex, TotalStableDebt, StableDebtBalance, UtilizationRate,
      RatesFor, AverageStableRate, VariableDebtBalance, LTokenBalance, Repriced;
    ValuesLater();
    UnscaledLater();
    AveragesLater();
    SwappedPriced();
    assert SwapMoved(LENT_OUT, FIRST, Stable, 12) == WithRatesOf(SWAPPED, LENT_OUT);
    RatesForgotten(SWAPPED, LENT_OUT, DAI);
    NoDeposit(FIRST);
  }

  lemma NoDeposit(u: User)
    requires u.scaledLTokenBalance == 0
    ensures LTokenBalance(LENT_OUT, u, 12) == 0
  {
    RayMulZero(NormalizedIncome(LENT_OUT, 12));
  }

  /** Both stable borrowers leave the stable rate: the first swap is in order, and the second takes out
      203 units more than the reserve's stable debt, which turns negative. */
  lemma SwapsTurnNegative()
    ensures var e := Event(1, SwapRateMode(Stable), 12, 12);
            && EnabledRun(START, OPENING + [e], DAI)
            && var s := Run(START, OPENING + [e], DAI);
               && s == System(SWAPPED, [LENDER, FIRST_SWAPPED, SECOND], 12)
               && VariableBorrowIndex(s.reserve, 12) >= RAY
               && SwapMoved(s.reserve, s.users[2], Stable, 12).principalStableDebt == -203
               && !SwapWithin(s.reserve, s.users[2], Stable, 12)
               && !Balanced(SwapMoved(s.reserve, s.users[2], Stable, 12), 12)
  {
    hide Run, EnabledRun, Step, Enabled, Sound, VariableBorrowIndex, TotalStableDebt, StableDebtBalance, RayMul,
      RayDiv, LiquidityIndex,
      AverageStableRate;
    OpeningRun();
    FirstSwap();
    RunAppend(START, OPENING, Event(1, SwapRateMode(Stable), 12, 12), DAI);
    ValuesLater();
    SwappedNow();
  }

  lemma SwappedNow()
    ensures Sound(SWAPPED, 12) && StableDebtUntil(SWAPPED, 12) == SWAPPED.principalStableDebt
    ensures VariableBorrowIndex(SWAPPED, 12) == SWAPPED.variableBorrowIndex
  {
    hide RayMul, RayDiv;
    ClaimsNow(SWAPPED, 12);
  }

  lemma {:induction false} RunAppend(s: System, es: seq<Event>, e: Event, p: ReserveParams)
    requires Sound(s.reserve, s.clock) && EnabledRun(s, es, p) && Enabled(Run(s, es, p), e)
    ensures EnabledRun(s, es + [e], p)
    ensures Run(s, es + [e], p) == Step(Run(s, es, p), e, p)
    decreases |es|
  {
    hide Sound, Step, Enabled;
    if es == [] {
      assert es + [e] == [e] && [e][1..] == [];
    } else {
      assert (es + [e])[0] == es[0] && (es + [e])[1..] == es[1..] + [e];
      RunAppend(Step(s, es[0], p), es[1..], e, p);
    }
  }

  /** Also the average alone can turn negative: over a debt of 10 at an average of 2, swapping 5 away
      that were borrowed at a rate of 5. */
  lemma SwapAverageNegative(r: Reserve, u: User, tx: int)
    requires Sound(r, tx) && StableDebtUntil(r, tx) == 10 && r.averageStableBorrowRate == 2
    requires UserStableDebt(u, tx) == 5 && u.stableBorrowRate == 5
    ensures VariableBorrowIndex(r, tx) >= RAY
    ensures SwapMoved(r, u, Stable, tx).averageStableBorrowRate == -1 && !SwapWithin(r, u, Stable, tx)
  {
    hide RayMul, RayDiv, LiquidityIndex, VariableBorrowIndex, TotalStableDebt, StableDebtBalance;
    IndexAtLeastRay(r, tx);
  }

  /** Such records exist. */
  lemma SwapAverageInput()
    ensures var r := Reserve(10, 0, 10, 0, 10, 0, 2, 0, 0, 0, RAY, RAY, 0, 1, 1, 0);
            var u := User(0, 0, 5, 0, 5, 0, 0, 5, 1, false, 0);
            && Sound(r, 1) && UserSound(u, 1)
            && StableDebtUntil(r, 1) == 10 && r.averageStableBorrowRate == 2
            && UserStableDebt(u, 1) == 5 && u.stableBorrowRate == 5
  {
  }

  // ---------- Later observations and bystanders ----------

  /** The last loan of the opening, observed ten seconds later: the rates are those of the debts at its
      inclusion, the totals those of the observation. */
  lemma LateBorrowMisprices()
    ensures var e := Event(2, Borrow(10 * WAD, Variable), 2, 12);
            && Sound(LENT_TWICE, 2) && Enabled(AFTER_SECOND_LOAN, e)
            && !ConsistentAt(Step(AFTER_SECOND_LOAN, e, DAI).reserve, 2, DAI)
  {
    hide RayMul, RayDiv, LiquidityIndex, VariableBorrowIndex, TotalStableDebt, StableDebtBalance, UtilizationRate,
      RatesFor, AverageStableRate, NormalizedDebt, Solvent, Repriced, ConsistentAt, ReserveStep, UserStep;
    var e := Event(2, Borrow(10 * WAD, Variable), 2, 12);
    LendRestValues();
    assert BorrowMoved(10 * WAD, Variable, LENT_TWICE, 2) == WithRatesOf(LENT_OUT, LENT_TWICE);
    RatesForgotten(LENT_OUT, LENT_TWICE, DAI);
    LentOutPriced();
    ValuesLater();
    StepConsistentIff(LENT_TWICE, SECOND_STABLE, e, DAI);
  }

  /** Repaying 10 of the stable debt, observed a second late: the user's record is accrued to the
      observation but stamped with the inclusion, so that second counts twice. */
  lemma LateRepaymentMisbooks()
    ensures var e := Event(1, Repay(10 * WAD, Stable), 12, 13);
            && Sound(OPEN.reserve, 12) && Enabled(OPEN, e)
            && UserStableDebt(Step(OPEN, e, DAI).users[1], 12) - UserStableDebt(FIRST, 12)
               != StableDebtUntil(Step(OPEN, e, DAI).reserve, 12) - StableDebtUntil(LENT_OUT, 12)
  {
    hide RayMul, LiquidityIndex, VariableBorrowIndex, TotalStableDebt, StableDebtBalance, ReserveStep, UserStep,
      StableSurvives;
    var e := Event(1, Repay(10 * WAD, Stable), 12, 13);
    ValuesLater();
    FirstLater();
    StepMovesSupplyIff(LENT_OUT, FIRST, e, DAI);
  }

  lemma FirstLater()
    ensures UserStableDebt(FIRST, 13) == 60_000_000_890_410_964_960
  {
    hide CompoundedInterest;
    CompoundedValue(FIRST.stableBorrowRate, 12, 1, 1_236_681_887_366_818_873, 1_529_382_091, 2, 66, 220);
  }

  /** A borrower whose debt the reserve no longer counts: while it counts no variable debt at all its
      index stands still, and the next action values the borrower's debt without the interest. */
  lemma BystanderRevalued()
    ensures var other := NOBODY.(scaledVariableDebt := 10 * WAD);
            var s, e := System(LENT, [LENDER, FIRST, other], 1), Event(0, Deposit(1), 12, 12);
            && Sound(s.reserve, 1) && Enabled(s, e)
            && VariableDebtBalance(LENT, other, 12) == 10_000_000_104_642_314_044
            && VariableDebtBalance(Step(s, e, DAI).reserve, Step(s, e, DAI).users[2], 12)
               != VariableDebtBalance(LENT, other, 12)
  {
    hide Step, VariableDebtBalance, CompoundedInterest;
    var other := NOBODY.(scaledVariableDebt := 10 * WAD);
    BystanderLater();
    OthersUnaffected(System(LENT, [LENDER, FIRST, other], 1), Event(0, Deposit(1), 12, 12), 2, DAI);
  }

  lemma BystanderLater()
    ensures VariableDebtBalance(LENT, NOBODY.(scaledVariableDebt := 10 * WAD), 12) == 10_000_000_104_642_314_044
    ensures RayMul(10 * WAD, RAY) == 10 * WAD
  {
    hide CompoundedInterest;
    CompoundedValue(LENT.variableBorrowRate, 11, 1, 951_293_759_512_937_595, 904_959_817, 1, 55, 165);
  }

  // ---------- Rebalancing one of two borrowers ----------

  const SMALL: Reserve := Reserve(
    1_000_000_001, 1_000_000_001, 0, 0, 0, 0, 0, 0, 39_000_000_000_000_000_000_000_000, 0,
    1_000_000_000_000_000_000_000_000_000, 1_000_000_000_000_000_000_000_000_000,
    39_000_000_000_000_000_000_000_000, 1, 0, 0)
  const SMALL_LENT: Reserve := Reserve(
    1_000_000_001, 1, 1_000_000_000, 0, 1_000_000_000, 0, 39_000_000_000_000_000_000_000_000,
    789_999_996_250_000_003_749_999_996, 808_999_996_250_000_003_749_999_996,
    999_999_999_000_000_000_999_999_999, 1_000_000_000_000_000_000_000_000_000,
    1_000_000_000_000_000_000_000_000_000, 39_000_000_000_000_000_000_000_000, 1, 1,
    35_099_999_964_900_000_035_100_000)
  const SMALL_LENT_OUT: Reserve := Reserve(
    1_000_000_001, 0, 1_000_000_001, 0, 1_000_000_001, 0, 39_000_000_769_999_995_480_000_008,
    790_000_000_000_000_000_000_000_000, 809_000_000_000_000_000_000_000_000,
    1_000_000_000_000_000_000_000_000_000, 1_000_000_000_000_000_000_000_000_000,
    1_000_000_000_000_000_000_000_000_000, 39_000_000_000_000_000_000_000_000, 1, 1,
    35_100_000_692_999_995_707_000_005)
  const SMALL_LENDER: User := User(1_000_000_001, 1_000_000_001, 0, 0, 0, 0, 0, 0, 0, true, -1_000_000_001)
  const SMALL_FIRST: User := User(
    0, 0, 1_000_000_000, 0, 1_000_000_000, 0, 35_099_999_964_900_000_035_100_000,
    39_000_000_000_000_000_000_000_000, 1, false, 1_000_000_000)
  const SMALL_SECOND: User := User(
    0, 0, 1, 0, 1, 0, 35_100_000_692_999_995_707_000_005, 808_999_996_250_000_003_749_999_996, 1,
    false, 1)

  const SMALL_START: System := System(SMALL, [SMALL_LENDER, NOBODY, NOBODY], 1)
  const SMALL_LOANED: System := System(SMALL_LENT, [SMALL_LENDER, SMALL_FIRST, NOBODY], 1)
  const SMALL_OPEN: System := System(SMALL_LENT_OUT, [SMALL_LENDER, SMALL_FIRST, SMALL_SECOND], 1)

  const SMALL_SUPPLY: Event := Event(0, Deposit(1_000_000_001), 1, 1)
  const SMALL_LOAN: Event := Event(1, Borrow(1_000_000_000, Stable), 1, 1)
  const SMALL_REST: Event := Event(2, Borrow(1, Stable), 1, 1)

  /** The same for a record above the kink without variable debt, one rounded operation at a time. */
  lemma PricedOverKink(r: Reserve, ratio: int, part: int, weighted: int, overall: int, gross: int)
    requires r.totalVariableDebt == 0 && r.totalStableDebt > 0 && r.totalLiquidity > 0
    requires r.marketStableRate == MARKET_RATE
    requires RayDiv(r.totalStableDebt, r.totalLiquidity) == r.utilizationRate > DAI.optimalUtilizationRate
    requires RayDiv(r.utilizationRate - DAI.optimalUtilizationRate, RAY - DAI.optimalUtilizationRate) == ratio
    requires RayMul(DAI.variableRateSlope2, ratio) == part && DAI.variableRateSlope2 == DAI.stableRateSlope2
    requires r.variableBorrowRate == DAI.variableRateSlope1 + part
    requires r.stableBorrowRate == MARKET_RATE + DAI.stableRateSlope1 + part
    requires RayMul(WadToRay(r.totalStableDebt), r.averageStableBorrowRate) == weighted
    requires RayDiv(weighted, WadToRay(r.totalStableDebt)) == overall
    requires RayMul(overall, r.utilizationRate) == gross && PercentMul(gross, 9000) == r.liquidityRate
    ensures Repriced(r, DAI) == r
  {
    hide RayMul, RayDiv, PercentMul;
    RayMulZero(r.variableBorrowRate);
  }

  lemma SmallLentPriced()
    ensures Repriced(SMALL_LENT, DAI) == SMALL_LENT
  {
    PricedOverKink(SMALL_LENT, 999_999_995_000_000_004_999_999_995, 749_999_996_250_000_003_749_999_996,
                   39_000_000_000_000_000, 39_000_000_000_000_000_000_000_000, 38_999_999_961_000_000_039_000_000);
  }

  lemma SmallLentOutPriced()
    ensures Repriced(SMALL_LENT_OUT, DAI) == SMALL_LENT_OUT
  {
    PricedOverKink(SMALL_LENT_OUT, 1_000_000_000_000_000_000_000_000_000, 750_000_000_000_000_000_000_000_000,
                   39_000_000_808_999_996, 39_000_000_769_999_995_230_000_005, 39_000_000_769_999_995_230_000_005);
  }

  lemma SmallValues()
    ensures AverageStableRate(0, 0, 1_000_000_000, MARKET_RATE) == MARKET_RATE
    ensures AverageStableRate(SMALL_LENT.averageStableBorrowRate, 1_000_000_000, 1, SMALL_LENT.stableBorrowRate)
         == SMALL_LENT_OUT.averageStableBorrowRate
    ensures RayMul(0, RAY) == 0
    ensures LiquidityIndex(SMALL_LENT, 1) == RAY && VariableBorrowIndex(SMALL_LENT, 1) == RAY
    ensures StableDebtUntil(SMALL_LENT, 1) == 1_000_000_000
  {
  }

  lemma SmallUsers()
    ensures FirstDeposited(1_000_000_001, MARKET_RATE, 1, DAI) == SMALL
    ensures UserAfterDeposit(1_000_000_001, START.reserve, SMALL, NOBODY, 1) == SMALL_LENDER
  {
  }

  lemma SmallFirstUser()
    ensures UserAfterBorrow(1_000_000_000, Stable, SMALL, SMALL_LENT, NOBODY, 1, 1) == SMALL_FIRST
  {
  }

  lemma SmallSecondUser()
    ensures UserAfterBorrow(1, Stable, SMALL_LENT, SMALL_LENT_OUT, NOBODY, 1, 1) == SMALL_SECOND
  {
  }

  lemma SmallLoanStep()
    ensures Sound(SMALL, 1) && Enabled(SMALL_START, SMALL_LOAN)
    ensures Step(SMALL_START, SMALL_LOAN, DAI) == SMALL_LOANED
  {
    hide RayMul, RayDiv, LiquidityIndex, VariableBorrowIndex, TotalStableDebt, UtilizationRate, RatesFor,
      AverageStableRate, NormalizedDebt, Solvent, AfterBorrow, BorrowDefined, Repriced, UserAfterBorrow;
    NothingYet(SMALL, 1);
    SmallValues();
    BorrowSound(1_000_000_000, Stable, SMALL, 1, 1, DAI);
    BorrowWithoutDelay(1_000_000_000, Stable, SMALL, 1, DAI);
    assert BorrowMoved(1_000_000_000, Stable, SMALL, 1) == WithRatesOf(SMALL_LENT, SMALL);
    RatesForgotten(SMALL_LENT, SMALL, DAI);
    SmallLentPriced();
    SmallFirstUser();
  }

  lemma SmallRestStep()
    ensures Sound(SMALL_LENT, 1) && Enabled(SMALL_LOANED, SMALL_REST)
    ensures Step(SMALL_LOANED, SMALL_REST, DAI) == SMALL_OPEN
  {
    hide RayMul, RayDiv, LiquidityIndex, VariableBorrowIndex, TotalStableDebt, UtilizationRate, RatesFor,
      AverageStableRate, NormalizedDebt, Solvent, AfterBorrow, BorrowDefined, Repriced, UserAfterBorrow;
    SmallValues();
    BorrowSound(1, Stable, SMALL_LENT, 1, 1, DAI);
    BorrowWithoutDelay(1, Stable, SMALL_LENT, 1, DAI);
    assert BorrowMoved(1, Stable, SMALL_LENT, 1) == WithRatesOf(SMALL_LENT_OUT, SMALL_LENT);
    RatesForgotten(SMALL_LENT_OUT, SMALL_LENT, DAI);
    SmallLentOutPriced();
    SmallSecondUser();
  }

  /** User 1 borrows almost all of a small reserve at the stable rate, user 2 the last unit. */
  lemma SmallRun()
    ensures Sound(START.reserve, START.clock) && Sound(SMALL_OPEN.reserve, SMALL_OPEN.clock)
    ensures EnabledRun(START, [SMALL_SUPPLY, SMALL_LOAN, SMALL_REST], DAI)
    ensures Run(START, [SMALL_SUPPLY, SMALL_LOAN, SMALL_REST], DAI) == SMALL_OPEN
  {
    hide Step, Enabled, Run, EnabledRun, Sound, UserAfterDeposit, FirstDeposited, InitialReserve, UserAfterBorrow;
    FirstDepositStep(START.users, 0, 1_000_000_001, MARKET_RATE, 1, DAI);
    SmallUsers();
    assert START.users[0 := SMALL_LENDER] == SMALL_START.users;
    SmallLoanStep();
    SmallRestStep();
    RunNothing(SMALL_OPEN, DAI);
    RunStep(SMALL_LOANED, SMALL_REST, [], DAI);
    RunStep(SMALL_START, SMALL_LOAN, [SMALL_REST] + [], DAI);
    RunStep(START, SMALL_SUPPLY, [SMALL_LOAN] + ([SMALL_REST] + []), DAI);
    assert [SMALL_SUPPLY] + ([SMALL_LOAN] + ([SMALL_REST] + [])) == [SMALL_SUPPLY, SMALL_LOAN, SMALL_REST];
  }

  /** A second after that run, rebalancing user 2 alone turns the reserve's average rate negative. */
  lemma RebalanceTurnsNegative()
    ensures RebalanceMoved(SMALL_LENT_OUT, SMALL_SECOND, 2).averageStableBorrowRate < 0
    ensures !RebalanceWithin(SMALL_LENT_OUT, SMALL_SECOND, 2)
  {
    hide RayMul, RayDiv, LiquidityIndex, VariableBorrowIndex, TotalStableDebt, StableDebtBalance;
    SmallLater();
    SmallWithout();
    SmallWith();
    RebalanceBalancedIff(SMALL_LENT_OUT, SMALL_SECOND, 2);
  }

  lemma SmallLater()
    ensures StableDebtUntil(SMALL_LENT_OUT, 2) == 1_000_000_002 && UserStableDebt(SMALL_SECOND, 2) == 1
  {
  }

  /** The first half of the rebalance. */
  lemma SmallWithout()
    ensures RayMul(SMALL_LENT_OUT.averageStableBorrowRate, 1_000_000_002) == 39_000_001
    ensures RayMul(SMALL_SECOND.stableBorrowRate, -1_000_000_000) == -808_999_995
    ensures RayDiv(-769_999_994, 2) == -384_999_996_999_999_999_999_999_999_999_999_999
  {
  }

  /** The second half. */
  lemma SmallWith()
    ensures RayMul(-384_999_996_999_999_999_999_999_999_999_999_999, 1_000_000_001) == -384_999_997_384_999_996
    ensures RayMul(SMALL_LENT_OUT.stableBorrowRate, 1_000_000_000) == 809_000_000
    ensures RayDiv(-384_999_996_575_999_996, 2_000_000_001) < 0
  {
  }

  // ---------- Deposits without cover ----------

  /** The curve of the test reserve for DAI, without a reserve factor. */
  const PLAIN: ReserveParams := DAI.(reserveFactor := 0)

  const UNRESET: Reserve := Reserve(
    122_133_293_356_097_381_303, 0, 122_133_293_356_097_381_303, 0, 100_000_000_000_000_000_000, 0,
    200_000_000_000_000_000_000_000_000, 790_000_000_000_000_000_000_000_000,
    770_000_000_000_000_000_000_000_000, 1_000_000_000_000_000_000_000_000_000,
    1_000_000_000_000_000_000_000_000_000, 1_000_000_000_000_000_000_000_000_000, 0, 31_536_001, 1,
    200_000_000_000_000_000_000_000_000)

  lemma UnresetPriced()
    ensures Repriced(UNRESET, PLAIN) == UNRESET
  {
    assert UtilizationRate(UNRESET.totalStableDebt, 0, UNRESET.totalLiquidity) == RAY;
    assert VariableRate(PLAIN, RAY) == UNRESET.variableBorrowRate;
    assert StableRate(PLAIN, 0, RAY) == UNRESET.stableBorrowRate;
    UnresetOverall();
    assert LiquidityRate(PLAIN, UNRESET.averageStableBorrowRate, RAY) == UNRESET.liquidityRate;
    hide UtilizationRate, VariableRate, StableRate, OverallBorrowRate, LiquidityRate;
  }

  lemma UnresetOverall()
    ensures OverallBorrowRate(UNRESET.totalStableDebt, 0, UNRESET.variableBorrowRate, UNRESET.averageStableBorrowRate)
         == UNRESET.averageStableBorrowRate
  {
  }

  /** A year of stable debt at 20 percent. */
  lemma UnresetDebts()
    ensures StableDebtUntil(UNRESET, 31_536_001) == UNRESET.totalStableDebt
    ensures StableDebtUntil(UNRESET, 31_536_002) == 122_133_294_129_812_509_535
  {
    hide CompoundedInterest;
    CompoundedValue(UNRESET.averageStableBorrowRate, 31_536_000, 1, 6_341_958_396_752_917_300, 40_220_436_306, 255,
                    497_259_632_232_000, 5_227_192_922_516_362_512_000);
    CompoundedValue(UNRESET.averageStableBorrowRate, 31_536_001, 1, 6_341_958_396_752_917_300, 40_220_436_306, 255,
                    497_259_663_768_000, 5_227_193_419_775_994_744_000);
  }

  lemma UnresetClaims()
    ensures RayMul(UNRESET.totalLiquidity, RAY) == UNRESET.totalLiquidity
    ensures RayMul(UNRESET.totalLiquidity, NormalizedIncome(UNRESET, 31_536_002)) == 122_133_294_130_661_646_626
    ensures RayMul(0, RAY) == 0 && VariableBorrowIndex(UNRESET, 31_536_002) == RAY
    ensures ClaimsDust(UNRESET, 1) < 3 * CLAIM_SCALE
  {
  }

  /** The record is up to date a year after its stable principal. */
  lemma UnresetConsistent()
    ensures ConsistentAt(UNRESET, 31_536_001, PLAIN) && UNRESET.totalStableDebtLastUpdated == 1
  {
    hide RayMul, TotalStableDebt, Repriced;
    UnresetPriced();
    UnresetDebts();
    UnresetClaims();
  }

  /** When the stable principal is a year old, as deposits, withdrawals and variable actions leave it,
      the record can be consistent and its deposits covered, and yet a second later they are owed
      849137091 units more than there is: the third-order factor over the whole year grows by less
      than the rate promises on the accrued debt. */
  lemma OldPrincipalFallsShort()
    ensures RayMul(UNRESET.totalLiquidity, UNRESET.liquidityIndex) == UNRESET.totalLiquidity
    ensures RayMul(UNRESET.totalLiquidity, NormalizedIncome(UNRESET, 31_536_002))
         - AccruedLiquidity(UNRESET, 31_536_002)
         == 849_137_091
    ensures 849_137_091 * CLAIM_SCALE > ClaimsDust(UNRESET, 1)
  {
    hide RayMul, NormalizedIncome, VariableBorrowIndex, TotalStableDebt, ClaimsDust;
    UnresetDebts();
    UnresetClaims();
  }
}
