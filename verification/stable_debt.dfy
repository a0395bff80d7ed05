/** The stable debt token's laws (specs/StableDebtToken.spec) for the predicted balances and rates
    of test-suites/test-palmy/helpers/utils/calculations.ts: minting is borrowing at a stable
    rate, burning is repaying it. */
module StableDebtLaws {
  import opened FixedPoint
  import opened Interest
  import opened Rates
  import opened Records
  import opened Balances
  import opened ReserveSteps
  import opened UserSteps
  import opened Soundness
  import opened Runs
  import opened Conservation

  // ---------- Weighted means ----------

  /** The weighted mean is the exact one rounded down. */
  lemma MeanFloor(b: int, rate: int, a: int, rateNew: int)
    requires b >= 0 && rate >= 0 && a >= 0 && rateNew >= 0 && b + a > 0
    ensures var m := UserStableRate(b, rate, a, rateNew);
            m >= 0 && m * (b + a) <= b * rate + a * rateNew < m * (b + a) + (b + a)
  {
    ProductNonNegative(b, rate);
    ProductNonNegative(a, rateNew);
    TruncDivFloor(b * rate + a * rateNew, b + a);
  }

  /** Mixing in x and then y at one rate gives the mean of mixing in x + y, or one unit less. */
  lemma MeanAdditive(b: int, rate: int, x: int, y: int, rateNew: int)
    requires b >= 0 && rate >= 0 && x >= 0 && y >= 0 && rateNew >= 0 && b + x > 0
    ensures var first := UserStableRate(b, rate, x, rateNew);
            var twice := UserStableRate(b + x, first, y, rateNew);
            var once := UserStableRate(b, rate, x + y, rateNew);
            once - 1 <= twice <= once
  {
    MeanFloor(b, rate, x, rateNew);
    var first := UserStableRate(b, rate, x, rateNew);
    MeanFloor(b + x, first, y, rateNew);
    MeanFloor(b, rate, x + y, rateNew);
    var twice, once := UserStableRate(b + x, first, y, rateNew), UserStableRate(b, rate, x + y, rateNew);
    assert (x + y) * rateNew == x * rateNew + y * rateNew;
    hide UserStableRate;
    MeanArithmetic(b + x, b + x + y, first * (b + x), b * rate + x * rateNew, y * rateNew, twice, once);
  }

  /** The first rounding loses less than d1 <= d in the numerator over d. */
  lemma MeanArithmetic(d1: int, d: int, rounded: int, exact: int, added: int, twice: int, once: int)
    requires 0 < d1 <= d && rounded <= exact < rounded + d1
    requires twice * d <= rounded + added < twice * d + d
    requires once * d <= exact + added < once * d + d
    ensures once - 1 <= twice <= once
  {
    assert (once + 1) * d == once * d + d && (twice + 2) * d == twice * d + 2 * d;
    MulCancel(twice, once + 1, d);
    MulCancel(once, twice + 2, d);
  }

  // ---------- Minting is additive ----------

  /** Borrowing x and then y at a stable rate, at one time and one offered rate, leaves the user
      with the principal of borrowing x + y and a rate at most one unit lower, never higher. */
  lemma MintAdditive(u: User, x: int, y: int, r1: Reserve, r2: Reserve, after1: Reserve, after2: Reserve, tx: int)
    requires x >= 0 && y >= 0 && UserStableDebt(u, tx) >= 0 && UserStableDebt(u, tx) + x > 0
    requires u.stableBorrowRate >= 0 && r1.stableBorrowRate == r2.stableBorrowRate >= 0
    ensures var u1 := UserAfterBorrow(x, Stable, r1, after1, u, tx, tx);
            && UserStableDebt(u1, tx) == UserStableDebt(u, tx) + x
            && var u2 := UserAfterBorrow(y, Stable, r2, after2, u1, tx, tx);
               var once := UserAfterBorrow(x + y, Stable, r1, after2, u, tx, tx);
               && UserStableDebt(u2, tx) == UserStableDebt(once, tx) == UserStableDebt(u, tx) + x + y
               && u2.principalStableDebt == once.principalStableDebt
               && once.stableBorrowRate - 1 <= u2.stableBorrowRate <= once.stableBorrowRate
  {
    hide UserStableRate, CompoundedInterest, RayMul, NormalizedDebt, LTokenBalance;
    MeanAdditive(UserStableDebt(u, tx), u.stableBorrowRate, x, y, r1.stableBorrowRate);
  }

  /** The same for the reserve: the principal adds up, and the average rate is at most one unit
      lower in two steps. */
  lemma MintAdditiveReserve(average: int, debt: int, x: int, y: int, rate: int)
    requires average >= 0 && debt >= 0 && x >= 0 && y >= 0 && rate >= 0 && debt + x > 0
    ensures var twice := AverageStableRate(AverageStableRate(average, debt, x, rate), debt + x, y, rate);
            var once := AverageStableRate(average, debt, x + y, rate);
            once - 1 <= twice <= once
  {
    MeanAdditive(debt, average, x, y, rate);
    AverageIsMean(average, debt, x, rate);
    AverageIsMean(average, debt, x + y, rate);
    AverageIsMean(AverageStableRate(average, debt, x, rate), debt + x, y, rate);
  }

  lemma AverageIsMean(average: int, debt: int, x: int, rate: int)
    requires debt + x > 0
    ensures AverageStableRate(average, debt, x, rate) == UserStableRate(debt, average, x, rate)
  {
    assert average * debt == debt * average && rate * x == x * rate;
  }

  // ---------- Burning is additive ----------

  /** Repaying x and then y at one time leaves the user the balance of repaying x + y. */
  lemma BurnAdditive(u: User, x: int, y: int, r1: Reserve, r2: Reserve, after1: Reserve, after2: Reserve, tx: int)
    requires Abs(x) != MAX_UINT_AMOUNT && Abs(y) != MAX_UINT_AMOUNT && Abs(x + y) != MAX_UINT_AMOUNT
    ensures var u1 := UserAfterRepay(x, Stable, r1, after1, u, "user", "user", tx, tx);
            && UserStableDebt(u1, tx) == UserStableDebt(u, tx) - x
            && var u2 := UserAfterRepay(y, Stable, r2, after2, u1, "user", "user", tx, tx);
               var once := UserAfterRepay(x + y, Stable, r1, after2, u, "user", "user", tx, tx);
               && UserStableDebt(u2, tx) == UserStableDebt(once, tx) == UserStableDebt(u, tx) - x - y
               && u2.walletBalance == once.walletBalance
  {
    hide CompoundedInterest, RayMul, NormalizedDebt, LTokenBalance, VariableDebtBalance;
  }

  // ---------- Burning undoes minting ----------

  /** The remainder dropped when the average rate takes in a mint. */
  function MintRemainder(average: int, debt: int, amount: int, rate: int): int
    requires debt + amount != 0
  {
    (average * debt + rate * amount) % (debt + amount)
  }

  /** Minting and then burning an amount over a prior debt, at rates that may differ: a burn at a
      higher rate takes out more interest than the mint put in. The debt is restored exactly when that
      difference and the remainder dropped by the mint stay together below (average + 1) * debt;
      otherwise the clamp erases debt and rate. When restored and nothing was gained, the average never
      rises, and drops by at most what was lost, and one unit more. Over no debt, nothing is left. */
  lemma BurnUndoesMint(average: int, debt: int, amount: int, rate: int, burnRate: int)
    requires average >= 0 && debt >= 0 && amount >= 0 && rate >= 0
    ensures var minted := AverageStableRate(average, debt, amount, rate);
            var (left, after) := StableBurn(minted, debt + amount, amount, burnRate);
            && (debt == 0 ==> left == 0 && after == 0)
            && (debt > 0 ==>
                  var lost := MintRemainder(average, debt, amount, rate) + (burnRate - rate) * amount;
                  && (left == debt <==> lost < (average + 1) * debt)
                  && (left != debt ==> left == 0 && after == 0)
                  && (left == debt && lost >= 0 ==> 0 <= after <= average && debt * (average - after) <= debt + lost)
                  && (left == debt && lost <= 0 ==> after >= average)
                  && (left == debt && rate == burnRate ==>
                        after <= average && debt * (average - after) < 2 * debt + amount))
  {
    if debt > 0 {
      var lost := MintRemainder(average, debt, amount, rate) + (burnRate - rate) * amount;
      MintedWeight(average, debt, amount, rate, burnRate);
      RateDifference(burnRate, rate, amount);
      hide AverageStableRate, TruncDiv, MintRemainder;
      assert (average + 1) * debt == average * debt + debt;
      TruncSign(average * debt - lost, debt);
      if lost >= 0 && lost < average * debt + debt {
        BackToAverage(average, debt, lost, lost + 1);
      }
      if lost <= 0 {
        UpFromAverage(average, debt, lost);
      }
    }
  }

  lemma UpFromAverage(average: int, debt: int, lost: int)
    requires average >= 0 && debt > 0 && lost <= 0
    ensures TruncDiv(average * debt - lost, debt) >= average
  {
    ProductNonNegative(average, debt);
    TruncDivFloor(average * debt - lost, debt);
    assert (TruncDiv(average * debt - lost, debt) + 1) * debt == TruncDiv(average * debt - lost, debt) * debt + debt;
    MulCancel(average, TruncDiv(average * debt - lost, debt) + 1, debt);
  }

  /** Taking the minted amount out again leaves the prior weight less what was lost. */
  lemma MintedWeight(average: int, debt: int, amount: int, rate: int, burnRate: int)
    requires average >= 0 && debt > 0 && amount >= 0 && rate >= 0
    ensures var minted := AverageStableRate(average, debt, amount, rate);
            var rem := MintRemainder(average, debt, amount, rate);
            && 0 <= rem < debt + amount
            && AverageStableRate(minted, debt + amount, -amount, burnRate)
               == TruncDiv(average * debt - (rem + (burnRate - rate) * amount), debt)
  {
    hide TruncDiv;
    ProductNonNegative(average, debt);
    ProductNonNegative(rate, amount);
    AverageQuotient(average, debt, amount, rate);
    RemainderWithin(average, debt, amount, rate);
    TakenOut(AverageStableRate(average, debt, amount, rate), debt, amount, burnRate);
    hide MintRemainder, AverageStableRate;
    RateDifference(burnRate, rate, amount);
  }

  lemma RemainderWithin(average: int, debt: int, amount: int, rate: int)
    requires debt + amount > 0
    ensures 0 <= MintRemainder(average, debt, amount, rate) < debt + amount
  {
  }

  lemma TakenOut(minted: int, debt: int, amount: int, rate: int)
    requires debt != 0
    ensures AverageStableRate(minted, debt + amount, -amount, rate)
         == TruncDiv(minted * (debt + amount) - rate * amount, debt)
  {
    hide TruncDiv;
    assert rate * -amount == -(rate * amount);
  }

  lemma RateDifference(a: int, b: int, c: int)
    ensures (a - b) * c == a * c - b * c
  {
  }

  lemma QuotientTimes(n: int, d: int)
    requires n >= 0 && d > 0
    ensures TruncDiv(n, d) * d == n - n % d && 0 <= n % d < d
  {
    assert n == d * (n / d) + n % d;
  }

  /** Dividing the prior weight, less a remainder, by the prior debt. */
  lemma BackToAverage(average: int, debt: int, rem: int, d: int)
    requires average >= 0 && debt > 0 && 0 <= rem < d && rem < average * debt + debt
    ensures var q := TruncDiv(average * debt - rem, debt);
            0 <= q <= average && debt * (average - q) < debt + d
  {
    var n := average * debt - rem;
    if n >= 0 {
      TruncDivFloor(n, debt);
      var q := TruncDiv(n, debt);
      assert (average + 1) * debt == average * debt + debt;
      MulCancel(q, average + 1, debt);
      assert debt * (average - q) == average * debt - q * debt;
    } else {
      TruncDivFloor(-n, debt);
      var k := TruncDiv(-n, debt);
      if k >= 1 { MulMono(1, k, debt); }
      assert TruncDiv(n, debt) == 0;
      assert debt * average == average * debt;
    }
  }

  /** Borrowing at a stable rate and repaying it at once, through both records: the burn uses the
      borrower's own mean rate, and the reserve's principal returns to its accrued debt exactly under
      that condition. For a borrower without other stable debt the two rates are the same. */
  lemma RepayUndoesBorrow(amount: int, r: Reserve, u: User, tx: int, p: ReserveParams)
    requires Sound(r, tx) && 0 < tx && 0 <= amount <= r.availableLiquidity && Abs(amount) != MAX_UINT_AMOUNT
    requires UserStableDebt(u, tx) + amount != 0
    ensures BorrowDefined(amount, Stable, r, tx, tx, p)
    ensures var borrowed := AfterBorrow(amount, Stable, r, tx, tx, p);
            var borrower := UserAfterBorrow(amount, Stable, r, borrowed, u, tx, tx);
            && RepayDefined(amount, Stable, borrowed, borrower, tx)
            && var repaid := AfterRepay(amount, Stable, borrowed, borrower, tx, p);
               var debt, average := StableDebtUntil(r, tx), r.averageStableBorrowRate;
               && repaid.availableLiquidity == r.availableLiquidity
               && repaid.scaledVariableDebt == r.scaledVariableDebt
               && (debt > 0 ==>
                     var lost := MintRemainder(average, debt, amount, r.stableBorrowRate)
                                 + (borrower.stableBorrowRate - r.stableBorrowRate) * amount;
                     && (repaid.principalStableDebt == debt <==> lost < (average + 1) * debt)
                     && (repaid.principalStableDebt == debt && lost >= 0 ==> repaid.averageStableBorrowRate <= average))
               && (debt == 0 ==> repaid.principalStableDebt == 0)
               && (UserStableDebt(u, tx) == 0 ==> borrower.stableBorrowRate == r.stableBorrowRate)
  {
    hide RayMul, RayDiv, LiquidityIndex, VariableBorrowIndex, StableBurn, AverageStableRate, RatesFor, UtilizationRate,
      CompoundedInterest, MintRemainder, NormalizedDebt, UserStableRate, StableSurvives, Solvent, LTokenBalance;
    BorrowSound(amount, Stable, r, tx, tx, p);
    BorrowWithoutDelay(amount, Stable, r, tx, p);
    StableDebtGrows(r.principalStableDebt, r.averageStableBorrowRate, r.totalStableDebtLastUpdated, tx);
    var borrowed := AfterBorrow(amount, Stable, r, tx, tx, p);
    var borrower := UserAfterBorrow(amount, Stable, r, borrowed, u, tx, tx);
    ClaimsNow(borrowed, tx);
    RepayBalancedIff(amount, Stable, borrowed, borrower, tx);
    RepricedSound(RepayMoved(amount, Stable, borrowed, borrower, tx), tx, p);
    BurnUndoesMint(r.averageStableBorrowRate, StableDebtUntil(r, tx), amount, r.stableBorrowRate,
                   borrower.stableBorrowRate);
    if UserStableDebt(u, tx) == 0 {
      FirstRate(u.stableBorrowRate, amount, r.stableBorrowRate);
    }
  }

  lemma FirstRate(rate: int, amount: int, rateNew: int)
    requires amount > 0 && rateNew >= 0
    ensures UserStableRate(0, rate, amount, rateNew) == rateNew
  {
    assert 0 * rate == 0;
    ProductNonNegative(amount, rateNew);
    TruncDivFloor(amount * rateNew, amount);
    var q := TruncDiv(amount * rateNew, amount);
    assert rateNew * amount == amount * rateNew;
    assert (q + 1) * amount == q * amount + amount && (rateNew + 1) * amount == rateNew * amount + amount;
    MulCancel(rateNew, q + 1, amount);
    MulCancel(q, rateNew + 1, amount);
  }

  /** The user's balance is restored by a burn of what was minted. */
  lemma UserBurnUndoesMint(amount: int, r1: Reserve, r2: Reserve, after1: Reserve, after2: Reserve, u: User, tx: int)
    requires Abs(amount) != MAX_UINT_AMOUNT && UserStableDebt(u, tx) + amount != 0
    ensures var minted := UserAfterBorrow(amount, Stable, r1, after1, u, tx, tx);
            var burnt := UserAfterRepay(amount, Stable, r2, after2, minted, "user", "user", tx, tx);
            && UserStableDebt(minted, tx) == UserStableDebt(u, tx) + amount
            && UserStableDebt(burnt, tx) == UserStableDebt(u, tx)
            && burnt.walletBalance == u.walletBalance
  {
    hide UserStableRate, CompoundedInterest, RayMul, NormalizedDebt, LTokenBalance, VariableDebtBalance;
  }

  /** The clamp can erase debt a burn was not meant to touch: one unit of debt at rate zero, ten
      more minted and burnt at rate one. */
  lemma BurnCanEraseDebt()
    ensures AverageStableRate(0, 1, 10, 1) == 0
    ensures StableBurn(AverageStableRate(0, 1, 10, 1), 11, 10, 1) == (0, 0)
  {
  }

  // ---------- The interest weight ----------

  /** The stable interest an action adds to the reserve: rate times amount, negative when burnt. */
  function WeightAdded(r: Reserve, u: User, e: Event): int {
    match e.action
    case Borrow(amount, mode) => if mode == Stable then r.stableBorrowRate * amount else 0
    case Repay(_, mode) => if mode == Stable then -(u.stableBorrowRate * -CashOut(r, u, e)) else 0
    case SwapRateMode(mode) => if mode == Stable then -(u.stableBorrowRate * UserStableDebt(u, e.tx)) else 0
    case _ => 0
  }

  lemma AverageKeepsWeight(average: int, total: int, change: int, rate: int)
    requires total + change > 0
    ensures var d, n := total + change, average * total + rate * change;
            -d < n - AverageStableRate(average, total, change, rate) * d < d
  {
    var d, n := total + change, average * total + rate * change;
    if n >= 0 {
      TruncDivFloor(n, d);
    } else {
      TruncDivFloor(-n, d);
      assert TruncDiv(n, d) * d == -(TruncDiv(-n, d) * d);
    }
  }

  /** The average rate times the stable debt, the interest the reserve is owed for it, changes by
      what the action adds or removes, within less than one unit per unit of remaining debt. */
  lemma StepKeepsStableWeight(r: Reserve, u: User, e: Event, p: ReserveParams)
    requires Sound(r, e.tx) && 0 < e.tx <= e.current && ActionEnabled(r, u, e)
    requires (e.action.Borrow? || e.action.Repay? || e.action.SwapRateMode?) && e.action.mode == Stable
    requires e.action.Repay? ==> Erased(r, u, e) == 0
    ensures var after := ReserveStep(r, u, e, p);
            var expected := r.averageStableBorrowRate * StableDebtUntil(r, e.tx) + WeightAdded(r, u, e);
            after.principalStableDebt > 0 ==>
              -after.principalStableDebt
              < expected - after.averageStableBorrowRate * after.principalStableDebt
              < after.principalStableDebt
  {
    hide RayMul, RayDiv, LiquidityIndex, VariableBorrowIndex, TotalStableDebt, StableDebtBalance, RatesFor,
      UtilizationRate,
      VariableDebtBalance, CompoundedInterest, NormalizedDebt, AverageStableRate;
    var after := ReserveStep(r, u, e, p);
    var debt, average := StableDebtUntil(r, e.tx), r.averageStableBorrowRate;
    if after.principalStableDebt > 0 {
      if e.action.Borrow? {
        AverageKeepsWeight(average, debt, e.action.amount, r.stableBorrowRate);
      } else {
        var moved := if e.action.Repay? then -CashOut(r, u, e) else UserStableDebt(u, e.tx);
        assert u.stableBorrowRate * -moved == -(u.stableBorrowRate * moved);
        AverageKeepsWeight(average, debt, -moved, u.stableBorrowRate);
      }
    }
  }

  // ---------- Balance and supply move together ----------

  /** A mint changes the user's balance and the supply by the same amount. */
  lemma MintMovesSupply(amount: int, r: Reserve, after: Reserve, u: User, tx: int, p: ReserveParams)
    requires Sound(r, tx) && 0 < tx && 0 <= amount <= r.availableLiquidity && UserStableDebt(u, tx) + amount != 0
    ensures BorrowDefined(amount, Stable, r, tx, tx, p)
    ensures UserStableDebt(UserAfterBorrow(amount, Stable, r, after, u, tx, tx), tx) - UserStableDebt(u, tx)
         == StableDebtUntil(AfterBorrow(amount, Stable, r, tx, tx, p), tx) - StableDebtUntil(r, tx)
         == amount
  {
    hide RayMul, RayDiv, LiquidityIndex, VariableBorrowIndex, AverageStableRate, RatesFor, UtilizationRate,
      CompoundedInterest,
      NormalizedDebt, UserStableRate, LTokenBalance;
    BorrowSound(amount, Stable, r, tx, tx, p);
    BorrowWithoutDelay(amount, Stable, r, tx, p);
    StableDebtGrows(r.principalStableDebt, r.averageStableBorrowRate, r.totalStableDebtLastUpdated, tx);
    ClaimsNow(AfterBorrow(amount, Stable, r, tx, tx, p), tx);
  }

  /** Interest that a repayment observed later adds to the user's record, which is stamped with the
      time of the inclusion; a maximal one is charged for it. */
  function LateInterest(u: User, e: Event): int
    requires e.action.Repay?
  {
    if Abs(e.action.amount) == MAX_UINT_AMOUNT then 0
    else UserStableDebt(u, e.current) - UserStableDebt(u, e.tx)
  }

  /** When an action books the same stable debt on the user and on the supply. A deposit overwrites
      the user's principal with the variable debt; a stable repayment can be clamped on the supply, or
      be accrued for the user past its own time; a variable one stores the accrued principal without
      its time; a swap to stable adds to the recorded debt. */
  ghost predicate StableBooked(r: Reserve, u: User, e: Event) {
    match e.action
    case Deposit(_) => VariableDebtBalance(r, u, e.tx) == u.principalStableDebt
    case Repay(_, mode) =>
      var debt, paid := StableDebtUntil(r, e.tx), -CashOut(r, u, e);
      if mode != Stable then UserStableDebt(u, e.current) == u.principalStableDebt
      else if StableSurvives(r.averageStableBorrowRate, debt, paid, u.stableBorrowRate) then LateInterest(u, e) == 0
      else paid == debt + LateInterest(u, e)
    case SwapRateMode(mode) => mode != Stable ==> u.currentStableDebt == UserStableDebt(u, e.tx)
    case _ => true
  }

  /** The acting user's stable balance and the stable supply change by the same amount exactly when
      the action books them alike; every other action than the four above always does. */
  lemma StepMovesSupplyIff(r: Reserve, u: User, e: Event, p: ReserveParams)
    requires Sound(r, e.tx) && 0 < e.tx <= e.current && ActionEnabled(r, u, e) && UserSound(u, e.tx)
    ensures UserStableDebt(UserStep(r, u, e, p), e.tx) - UserStableDebt(u, e.tx)
         == StableDebtUntil(ReserveStep(r, u, e, p), e.tx) - StableDebtUntil(r, e.tx)
       <==> StableBooked(r, u, e)
  {
    hide StableSurvives, ReserveStep, UserStep, StableDebtBalance, VariableDebtBalance, TotalStableDebt;
    SupplyChange(r, u, e, p);
    BalanceChange(r, u, e, p);
    VariableDebtMono(r, u, e.tx, e.tx);
    var principal, rate, last := u.principalStableDebt, u.stableBorrowRate, u.stableRateLastUpdated;
    StableDebtGrows(principal, rate, last, e.current);
    StableBalanceInjective(VariableDebtBalance(r, u, e.tx), principal, rate, last, e.tx);
    StableBalanceInjective(UserStableDebt(u, e.current), principal, rate, last, e.tx);
    BurnSurvivesIff(r.averageStableBorrowRate, StableDebtUntil(r, e.tx), -CashOut(r, u, e), rate);
    hide Sound;
  }

  /** What an action does to the stable supply. */
  lemma SupplyChange(r: Reserve, u: User, e: Event, p: ReserveParams)
    requires Sound(r, e.tx) && 0 < e.tx <= e.current && ActionEnabled(r, u, e)
    ensures StableDebtUntil(ReserveStep(r, u, e, p), e.tx)
         == match e.action
            case Borrow(amount, mode) => StableDebtUntil(r, e.tx) + if mode == Stable then amount else 0
            case Repay(_, mode) =>
              if mode == Stable then StableBurn(r.averageStableBorrowRate, StableDebtUntil(r, e.tx),
                                                -CashOut(r, u, e), u.stableBorrowRate).0
              else StableDebtUntil(r, e.tx)
            case SwapRateMode(mode) =>
              StableDebtUntil(r, e.tx)
              + if mode == Stable then -UserStableDebt(u, e.tx) else VariableDebtBalance(r, u, e.tx)
            case _ => StableDebtUntil(r, e.tx)
  {
    hide RayMul, RayDiv, LiquidityIndex, VariableBorrowIndex, StableDebtBalance, RatesFor, UtilizationRate,
      TotalStableDebt,
      AverageStableRate, AverageStableRateRebalance, StableBurn, VariableDebtBalance, LTokenBalance, NormalizedDebt,
      CompoundedInterest;
    var after := ReserveStep(r, u, e, p);
    if after.totalStableDebtLastUpdated == e.tx {
      assert after.principalStableDebt >= 0;
      StableDebtNow(after, e.tx);
    }
  }

  /** What an action does to the acting user's stable balance. */
  lemma BalanceChange(r: Reserve, u: User, e: Event, p: ReserveParams)
    requires Sound(r, e.tx) && 0 < e.tx <= e.current && ActionEnabled(r, u, e) && UserSound(u, e.tx)
    ensures UserStableDebt(UserStep(r, u, e, p), e.tx)
         == match e.action
            case Deposit(_) =>
              StableDebtBalance(VariableDebtBalance(r, u, e.tx), u.stableBorrowRate, u.stableRateLastUpdated, e.tx)
            case Borrow(amount, mode) => UserStableDebt(u, e.tx) + if mode == Stable then amount else 0
            case Repay(_, mode) =>
              if mode == Stable then UserStableDebt(u, e.tx) + CashOut(r, u, e) + LateInterest(u, e)
              else StableDebtBalance(UserStableDebt(u, e.current), u.stableBorrowRate, u.stableRateLastUpdated, e.tx)
            case SwapRateMode(mode) =>
              if mode == Stable then 0 else u.currentStableDebt + VariableDebtBalance(r, u, e.tx)
            case _ => UserStableDebt(u, e.tx)
  {
    hide RayMul, RayDiv, LiquidityIndex, VariableBorrowIndex, RatesFor, UtilizationRate, TotalStableDebt,
      UserStableRate, AverageStableRate, AverageStableRateRebalance, StableBurn, VariableDebtBalance, LTokenBalance,
      NormalizedDebt, CompoundedInterest, ReserveStep, RebalanceWithin, SwapWithin, Sound;
  }

  // ---------- Burning ----------

  /** When a burn leaves no supply: it reaches the supply, or the interest weight it removes
      exceeds the whole weight by at least what would be left. */
  lemma BurnErasesIff(average: int, supply: int, amount: int, rate: int)
    requires supply >= 0 && amount >= 0
    ensures StableBurn(average, supply, amount, rate).0 == 0
       <==> amount >= supply || rate * amount - average * supply >= supply - amount
    ensures var left := StableBurn(average, supply, amount, rate).0; left == 0 || left == supply - amount
  {
    BurnSurvivesIff(average, supply, amount, rate);
  }

  /** The token's rule for a burn that leaves no supply: it compares the rounded interest weights of
      the burnt amount and of the whole supply. */
  predicate TokenErases(average: int, supply: int, amount: int, rate: int) {
    amount >= supply || RayMul(rate, WadToRay(amount)) >= RayMul(average, WadToRay(supply))
  }

  /** The prediction empties the supply only where the token does. The two part exactly where the
      rounded weight burnt reaches the rounded whole weight and the exact one exceeds it by less than
      the debt that would be left; the exact weights are then less than one wad short. */
  lemma BurnRuleGap(average: int, supply: int, amount: int, rate: int)
    requires average >= 0 && supply >= 0 && amount >= 0 && rate >= 0
    ensures var left, excess := StableBurn(average, supply, amount, rate).0, rate * amount - average * supply;
            && (left == 0 ==> TokenErases(average, supply, amount, rate))
            && (TokenErases(average, supply, amount, rate) && left != 0
                <==> && amount < supply
                     && RayMul(rate, WadToRay(amount)) >= RayMul(average, WadToRay(supply))
                     && excess < supply - amount)
            && (TokenErases(average, supply, amount, rate) && left != 0 ==> -WAD < excess < supply - amount)
            && (0 <= excess < supply - amount ==> TokenErases(average, supply, amount, rate) && left != 0)
  {
    hide RayMul, StableBurn;
    BurnErasesIff(average, supply, amount, rate);
    if amount < supply {
      RayMulRounds(rate, WadToRay(amount));
      RayMulRounds(average, WadToRay(supply));
      WadProduct(amount, rate);
      WadProduct(supply, average);
      hide IsRounded;
      CompareRounded(rate * amount, average * supply, RayMul(rate, WadToRay(amount)),
                     RayMul(average, WadToRay(supply)));
    }
  }

  /** Rounding keeps the order of two weights, up to less than a wad. */
  lemma CompareRounded(a: int, b: int, ra: int, rb: int)
    requires IsRounded(WAD_RAY_RATIO * a, RAY, ra) && IsRounded(WAD_RAY_RATIO * b, RAY, rb)
    ensures a >= b ==> ra >= rb
    ensures ra >= rb ==> a > b - WAD
  {
  }

  /** One unit of rate on two units of supply: both rounded weights are zero, so the token empties the
      supply when one unit is burnt, and the prediction leaves one. */
  lemma BurnRuleParts()
    ensures TokenErases(1, 2, 1, 1) && StableBurn(1, 2, 1, 1) == (1, 1)
    ensures TokenErases(0, 3, 1, 1) && StableBurn(0, 3, 1, 1) == (2, 0)
  {
  }

  // ---------- The average of a swap to stable ----------

  /** A swap to stable averages over the recorded stable total. Before rounding, that is the average q
      over the accrued total exactly when the total is up to date, nothing moves or the rates are
      equal; an older total leans towards the offered rate. After truncation the two are equal exactly
      when the missing interest, weighted by how far q lies from the old average, still fits with the
      remainder of q into the recorded total. */
  lemma SwapAverageIff(average: int, recorded: int, accrued: int, moved: int, rate: int)
    requires 0 <= recorded <= accrued && 0 < recorded + moved && 0 <= moved
    ensures (average * recorded + rate * moved) * (accrued + moved)
         == (average * accrued + rate * moved) * (recorded + moved)
       <==> recorded == accrued || moved == 0 || average == rate
    ensures 0 <= average <= rate ==>
              AverageStableRate(average, recorded, moved, rate) >= AverageStableRate(average, accrued, moved, rate)
    ensures 0 <= rate <= average ==>
              AverageStableRate(average, recorded, moved, rate) <= AverageStableRate(average, accrued, moved, rate)
    ensures average >= 0 && rate >= 0 ==>
              var q := AverageStableRate(average, accrued, moved, rate);
              AverageStableRate(average, recorded, moved, rate) == q
              <==> var left := MintRemainder(average, accrued, moved, rate) + (accrued - recorded) * (q - average);
                   0 <= left < recorded + moved
  {
    hide AverageStableRate, MintRemainder;
    var n1, d1 := average * recorded + rate * moved, recorded + moved;
    var n2, d2 := average * accrued + rate * moved, accrued + moved;
    MeansDiffer(average, recorded, accrued, moved, rate);
    if 0 <= average && 0 <= rate {
      ProductNonNegative(average, recorded);
      ProductNonNegative(average, accrued);
      ProductNonNegative(rate, moved);
      ProductNonNegative(moved, accrued - recorded);
      AverageQuotient(average, recorded, moved, rate);
      AverageQuotient(average, accrued, moved, rate);
      if average <= rate {
        ProductNonNegative(moved * (accrued - recorded), rate - average);
        QuotientMono(n2, d2, n1, d1);
      }
      if rate <= average {
        ProductNonNegative(moved * (accrued - recorded), average - rate);
        QuotientMono(n1, d1, n2, d2);
      }
      var q := AverageStableRate(average, accrued, moved, rate);
      QuotientIff(n1, d1, q);
      RemainderMoves(average, recorded, accrued, moved, rate, q);
    }
  }

  lemma AverageQuotient(average: int, total: int, moved: int, rate: int)
    requires total + moved > 0 && average * total + rate * moved >= 0
    ensures AverageStableRate(average, total, moved, rate) == TruncDiv(average * total + rate * moved, total + moved)
    ensures AverageStableRate(average, total, moved, rate) * (total + moved)
         == average * total + rate * moved - MintRemainder(average, total, moved, rate)
  {
    QuotientTimes(average * total + rate * moved, total + moved);
  }

  lemma QuotientIff(n: int, d: int, q: int)
    requires n >= 0 && d > 0
    ensures TruncDiv(n, d) == q <==> 0 <= n - q * d < d
  {
    TruncDivFloor(n, d);
    var t := TruncDiv(n, d);
    OneMore(t, d);
    OneMore(q, d);
    if 0 <= n - q * d < d {
      MulCancel(t, q + 1, d);
      MulCancel(q, t + 1, d);
    }
  }

  lemma RemainderMoves(average: int, recorded: int, accrued: int, moved: int, rate: int, q: int)
    ensures average * recorded + rate * moved - q * (recorded + moved)
         == average * accrued + rate * moved - q * (accrued + moved) + (accrued - recorded) * (q - average)
  {
    assert (accrued - recorded) * (q - average) == accrued * q - accrued * average - recorded * q + recorded * average;
    assert q * (recorded + moved) == q * recorded + q * moved && q * (accrued + moved) == q * accrued + q * moved;
  }

  /** At the record: the swap's average against the mean over the accrued stable debt. */
  lemma SwapRecordsAverage(r: Reserve, u: User, tx: int)
    requires Sound(r, tx) && VariableDebtBalance(r, u, tx) >= 0
    requires r.totalStableDebt <= StableDebtUntil(r, tx) && r.totalStableDebt + VariableDebtBalance(r, u, tx) > 0
    ensures VariableBorrowIndex(r, tx) >= RAY
    ensures var average, rate := r.averageStableBorrowRate, r.stableBorrowRate;
            var debt, moved := StableDebtUntil(r, tx), VariableDebtBalance(r, u, tx);
            var q := AverageStableRate(average, debt, moved, rate);
            && (SwapMoved(r, u, Variable, tx).averageStableBorrowRate == q
                <==> 0 <= MintRemainder(average, debt, moved, rate) + (debt - r.totalStableDebt) * (q - average)
                     < r.totalStableDebt + moved)
            && (average <= rate ==> SwapMoved(r, u, Variable, tx).averageStableBorrowRate >= q)
            && (rate <= average ==> SwapMoved(r, u, Variable, tx).averageStableBorrowRate <= q)
  {
    hide RayMul, RayDiv, LiquidityIndex, VariableBorrowIndex, TotalStableDebt, VariableDebtBalance, AverageStableRate,
      MintRemainder;
    IndexAtLeastRay(r, tx);
    SwapAverageIff(r.averageStableBorrowRate, r.totalStableDebt, StableDebtUntil(r, tx), VariableDebtBalance(r, u, tx),
                   r.stableBorrowRate);
  }

  lemma MeansDiffer(average: int, recorded: int, accrued: int, moved: int, rate: int)
    ensures (average * recorded + rate * moved) * (accrued + moved)
         - (average * accrued + rate * moved) * (recorded + moved)
         == (moved * (accrued - recorded)) * (rate - average)
    ensures (moved * (accrued - recorded)) * (rate - average) == -((moved * (accrued - recorded)) * (average - rate))
    ensures (moved * (accrued - recorded)) * (rate - average) == 0
       <==> moved == 0 || accrued == recorded || rate == average
  {
    CrossMeans(average * recorded, average * accrued, rate * moved, accrued, recorded, moved);
    SwapFactors(average, recorded, accrued);
    TimesDifference(moved, accrued, recorded, average);
    TimesDifference(moved, accrued, recorded, rate);
    var k := moved * (accrued - recorded);
    assert k * (rate - average) == k * rate - k * average && k * (average - rate) == k * average - k * rate;
    ZeroProduct(moved, accrued - recorded);
    ZeroProduct(k, rate - average);
  }

  lemma CrossMeans(ar: int, aa: int, rm: int, accrued: int, recorded: int, moved: int)
    ensures (ar + rm) * (accrued + moved) - (aa + rm) * (recorded + moved)
         == ar * accrued - aa * recorded + (ar * moved - aa * moved) + (rm * accrued - rm * recorded)
  {
  }

  lemma SwapFactors(a: int, b: int, c: int)
    ensures (a * b) * c == (a * c) * b
  {
  }

  lemma TimesDifference(moved: int, accrued: int, recorded: int, rate: int)
    ensures (moved * (accrued - recorded)) * rate == (rate * moved) * accrued - (rate * moved) * recorded
    ensures (moved * (accrued - recorded)) * rate == (rate * accrued) * moved - (rate * recorded) * moved
  {
    SwapFactors(rate, moved, accrued);
    SwapFactors(rate, moved, recorded);
    assert moved * (accrued - recorded) == moved * accrued - moved * recorded;
    assert (moved * accrued - moved * recorded) * rate == (moved * accrued) * rate - (moved * recorded) * rate;
  }

  lemma ZeroProduct(a: int, b: int)
    ensures a * b == 0 <==> a == 0 || b == 0
  {
  }

  /** Truncated quotients follow the order of the exact ones. */
  lemma QuotientMono(n1: int, d1: int, n2: int, d2: int)
    requires n1 >= 0 && n2 >= 0 && d1 > 0 && d2 > 0 && n1 * d2 <= n2 * d1
    ensures TruncDiv(n1, d1) <= TruncDiv(n2, d2)
  {
    TruncDivFloor(n1, d1);
    TruncDivFloor(n2, d2);
    CrossMultiply(TruncDiv(n1, d1), d1, n1, TruncDiv(n2, d2) + 1, d2, n2);
  }

  // ---------- Rebalancing ----------

  /** q is n / d within the rounding of a ray quotient of two ray products. */
  predicate Averages(q: int, d: int, n: int) {
    if d == 0 then q == 0 else Abs(q * d - n) < 2 * Abs(d) + 3 * RAY
  }

  /** The rebalance average is the mean of its two weights over the mixed total, for operands of either
      sign. */
  lemma RebalanceAverages(average: int, total: int, change: int, rate: int)
    ensures Averages(AverageStableRateRebalance(average, total, change, rate), total + WadToRay(change),
                     average * total + rate * WadToRay(change))
  {
    hide RayMul, RayDiv;
    var d, w, v := total + WadToRay(change), RayMul(average, total), RayMul(rate, WadToRay(change));
    if d != 0 {
      SignedRayMul(average, total);
      SignedRayMul(rate, WadToRay(change));
      SignedRayDiv(w + v, d);
    }
  }

  lemma SignedRayMul(a: int, b: int)
    ensures 2 * Abs(RayMul(a, b) * RAY - a * b) < 3 * RAY
  {
    SignedDiv(HALF_RAY + a * b, RAY);
  }

  lemma SignedDiv(a: int, b: int)
    requires b != 0
    ensures Abs(TruncDiv(a, b) * b - a) < Abs(b)
  {
    if b > 0 {
      TruncDivFloor(Abs(a), b);
      assert TruncDiv(a, b) == if a >= 0 then TruncDiv(Abs(a), b) else -TruncDiv(Abs(a), b);
      assert -TruncDiv(Abs(a), b) * b == -(TruncDiv(Abs(a), b) * b);
    } else {
      NegativeDivisor(Abs(a), -b);
      TruncDivFloor(Abs(a), -b);
      var q := TruncDiv(Abs(a), -b);
      assert q * -b == -(q * b) && -q * b == -(q * b);
    }
  }

  lemma NegativeDivisor(a: int, b: int)
    requires a >= 0 && b > 0
    ensures TruncDiv(a, -b) == -TruncDiv(a, b)
  {
  }

  lemma SignedRayDiv(a: int, b: int)
    requires b != 0
    ensures 2 * Abs(RayDiv(a, b) * b - a * RAY) <= 3 * Abs(b)
  {
    SignedDiv(TruncDiv(b, 2) + a * RAY, b);
    hide TruncDiv;
    assert 2 * Abs(TruncDiv(b, 2)) <= Abs(b) by { HalfOf(b); }
  }

  lemma HalfOf(b: int)
    ensures 2 * Abs(TruncDiv(b, 2)) <= Abs(b)
  {
  }

  /** A rebalance takes the user's debt, in rays, out of the average at the user's own rate and puts it
      back at the offered one. */
  lemma RebalanceRecordsAverage(r: Reserve, u: User, tx: int) returns (without: int)
    ensures var debt, userDebt := StableDebtUntil(r, tx), UserStableDebt(u, tx);
            && Averages(without, debt - WadToRay(userDebt),
                        r.averageStableBorrowRate * debt - u.stableBorrowRate * WadToRay(userDebt))
            && Averages(RebalanceMoved(r, u, tx).averageStableBorrowRate, debt - userDebt + WadToRay(userDebt),
                        without * (debt - userDebt) + r.stableBorrowRate * WadToRay(userDebt))
  {
    hide RayMul, LiquidityIndex, VariableBorrowIndex, TotalStableDebt, StableDebtBalance,
      AverageStableRateRebalance, Averages;
    var debt, userDebt := StableDebtUntil(r, tx), UserStableDebt(u, tx);
    without := AverageStableRateRebalance(r.averageStableBorrowRate, debt, -userDebt, u.stableBorrowRate);
    RebalanceAverages(r.averageStableBorrowRate, debt, -userDebt, u.stableBorrowRate);
    RebalanceAverages(without, debt - userDebt, userDebt, r.stableBorrowRate);
    assert WadToRay(-userDebt) == -WadToRay(userDebt);
    assert u.stableBorrowRate * -WadToRay(userDebt) == -(u.stableBorrowRate * WadToRay(userDebt));
  }

  /** Rebalancing the only stable borrower gives the offered rate back exactly, whatever that rate
      is, precisely when the debt is at least one wad. */
  lemma RebalanceExactIff(debt: int)
    requires debt > 0
    ensures (forall without, rate :: rate >= 0 ==> AverageStableRateRebalance(without, 0, debt, rate) == rate)
       <==> debt >= WAD
  {
    forall without, rate: int | rate >= 0
      ensures AverageStableRateRebalance(without, 0, debt, rate) == RayDiv(RayMul(rate, WadToRay(debt)), WadToRay(debt))
    {
      SoleBorrowerAverage(without, debt, rate);
    }
    RoundTripIff(WadToRay(debt));
    hide RayMul, RayDiv, AverageStableRateRebalance;
    if forall without, rate :: rate >= 0 ==> AverageStableRateRebalance(without, 0, debt, rate) == rate {
      forall s | s >= 0 ensures RayDiv(RayMul(s, WadToRay(debt)), WadToRay(debt)) == s {
        assert AverageStableRateRebalance(0, 0, debt, s) == s;
      }
    }
  }

  /** Rebalancing the only stable borrower sets both the reserve's average and the user's rate to
      exactly the reserve's offered rate, once the debt is a wad. */
  lemma RebalanceSoleBorrower(r: Reserve, u: User, tx: int, p: ReserveParams)
    requires Sound(r, tx) && 0 < tx
    requires UserStableDebt(u, tx) == StableDebtUntil(r, tx) >= WAD
    ensures Priceable(RebalanceMoved(r, u, tx))
    ensures var after := AfterRebalance(r, u, tx, p);
            && after.averageStableBorrowRate == r.stableBorrowRate
            && UserAfterRebalance(r, after, u, tx).stableBorrowRate == r.stableBorrowRate
            && after.principalStableDebt == UserAfterRebalance(r, after, u, tx).principalStableDebt
            && after.availableLiquidity == r.availableLiquidity
  {
    hide RayMul, RayDiv, LiquidityIndex, VariableBorrowIndex, RatesFor, UtilizationRate, TotalStableDebt,
      StableDebtBalance,
      AverageStableRateRebalance, LTokenBalance, VariableDebtBalance;
    SoleRebalanceWithin(r, u, tx);
    RebalanceBalancedIff(r, u, tx);
    RepricedSound(RebalanceMoved(r, u, tx), tx, p);
    RebalanceExactIff(StableDebtUntil(r, tx));
  }
}
