/** Whether the users' scaled debts add up to the reserve's, and where utilization can exceed one
    ray: two places where the predictions of
    test-suites/test-palmy/helpers/utils/calculations.ts hold only under a condition. */
module DebtShares {
  import opened FixedPoint
  import opened Interest
  import opened Rates
  import opened Records
  import opened Balances
  import opened ReserveSteps
  import opened UserSteps
  import opened Soundness
  import opened Runs
  import opened Conservation

  // ---------- Shares of the scaled debt ----------

  function ScaledDebts(users: seq<User>): int {
    if users == [] then 0 else users[0].scaledVariableDebt + ScaledDebts(users[1..])
  }

  /** Scaled debt of the users beyond that of the reserve. */
  function Excess(s: System): int {
    ScaledDebts(s.users) - s.reserve.scaledVariableDebt
  }

  lemma {:induction false} ScaledDebtsUpdate(users: seq<User>, k: nat, u: User)
    requires k < |users|
    ensures ScaledDebts(users[k := u]) == ScaledDebts(users) - users[k].scaledVariableDebt + u.scaledVariableDebt
  {
    if k > 0 {
      ScaledDebtsUpdate(users[1..], k - 1, u);
      assert users[k := u][1..] == users[1..][k - 1 := u];
    } else {
      assert users[0 := u][1..] == users[1..];
    }
  }

  ghost predicate VariableBorrow(a: Action) {
    a.Borrow? && a.mode != Stable
  }

  /** How the actor's and the reserve's scaled debts move: alike, except that a variable borrow
      restarts the user from the debt of the whole reserve. */
  lemma SharesMove(r: Reserve, u: User, e: Event, p: ReserveParams)
    requires Sound(r, e.tx) && 0 < e.tx <= e.current && ActionEnabled(r, u, e) && PayoffImmediate(e)
    requires 0 <= u.scaledVariableDebt <= r.scaledVariableDebt
    ensures var user, after := UserStep(r, u, e, p), ReserveStep(r, u, e, p);
            user.scaledVariableDebt - u.scaledVariableDebt
            == after.scaledVariableDebt - r.scaledVariableDebt
               + if VariableBorrow(e.action) then r.scaledVariableDebt - u.scaledVariableDebt else 0
  {
    ValuedDebtUnscales(r, u, e.tx);
    hide RayMul, RayDiv, LiquidityIndex, VariableBorrowIndex, NormalizedDebt, NormalizedIncome, StableDebtBalance,
      UserStableRate,
      RatesFor, UtilizationRate, TotalStableDebt, AverageStableRate, AverageStableRateRebalance, StableBurn,
      VariableDebtBalance,
      LTokenBalance, ScaledLTokenBalance, SwapWithin, Balanced, CompoundedInterest;
    StepSound(r, u, e, p);
    hide Sound;
  }

  /** An action keeps the excess exactly when it is not a variable borrow by a user whose scaled
      debt differs from the whole reserve's. */
  lemma StepKeepsExcessIff(s: System, e: Event, p: ReserveParams)
    requires Sound(s.reserve, s.clock) && Enabled(s, e) && PayoffImmediate(e)
    requires 0 <= s.users[e.actor].scaledVariableDebt <= s.reserve.scaledVariableDebt
    ensures Excess(Step(s, e, p)) == Excess(s)
       <==> (VariableBorrow(e.action) ==> s.users[e.actor].scaledVariableDebt == s.reserve.scaledVariableDebt)
  {
    SoundLater(s.reserve, s.clock, e.tx);
    var u := s.users[e.actor];
    SharesMove(s.reserve, u, e, p);
    hide Sound, ReserveStep, UserStep;
    ScaledDebtsUpdate(s.users, e.actor, UserStep(s.reserve, u, e, p));
  }

  // ---------- A single borrower ----------

  /** Everyone but user `k` only deposits, withdraws or sets collateral. */
  ghost predicate SingleBorrower(es: seq<Event>, k: nat) {
    forall i :: 0 <= i < |es| ==>
      es[i].actor == k || es[i].action.Deposit? || es[i].action.Withdraw? || es[i].action.SetUseAsCollateral?
  }

  /** Depositing and withdrawing leave the reserve's scaled debt alone. */
  lemma LendingKeepsScaledDebt(r: Reserve, u: User, e: Event, p: ReserveParams)
    requires Sound(r, e.tx) && 0 < e.tx <= e.current && ActionEnabled(r, u, e)
    requires e.action.Deposit? || e.action.Withdraw? || e.action.SetUseAsCollateral?
    ensures ReserveStep(r, u, e, p).scaledVariableDebt == r.scaledVariableDebt
  {
    hide RayMul, LiquidityIndex, VariableBorrowIndex, RatesFor, UtilizationRate, TotalStableDebt;
  }

  lemma StepKeepsSole(s: System, e: Event, k: nat, p: ReserveParams)
    requires Sound(s.reserve, s.clock) && Enabled(s, e) && PayoffImmediate(e) && k < |s.users|
    requires e.actor == k || e.action.Deposit? || e.action.Withdraw? || e.action.SetUseAsCollateral?
    requires s.users[k].scaledVariableDebt == s.reserve.scaledVariableDebt
    ensures Step(s, e, p).users[k].scaledVariableDebt == Step(s, e, p).reserve.scaledVariableDebt
  {
    SoundLater(s.reserve, s.clock, e.tx);
    var u := s.users[e.actor];
    if e.actor == k {
      SharesMove(s.reserve, u, e, p);
    } else {
      LendingKeepsScaledDebt(s.reserve, u, e, p);
    }
    hide ReserveStep, UserStep;
  }

  /** With a single borrower the user's scaled debt stays the reserve's over every run. */
  lemma {:induction false} RunKeepsSole(s: System, es: seq<Event>, k: nat, p: ReserveParams)
    requires Sound(s.reserve, s.clock) && EnabledRun(s, es, p) && PayoffsImmediate(es)
    requires k < |s.users| && SingleBorrower(es, k)
    requires s.users[k].scaledVariableDebt == s.reserve.scaledVariableDebt
    ensures Run(s, es, p).users[k].scaledVariableDebt == Run(s, es, p).reserve.scaledVariableDebt
    decreases |es|
  {
    if es != [] {
      assert PayoffImmediate(es[0]);
      StepKeepsSole(s, es[0], k, p);
      TailIsSuffix(es);
      hide Sound;
      RunKeepsSole(Step(s, es[0], p), es[1..], k, p);
    }
  }

  /** So after any such run a maximal repayment by that user leaves no variable debt anywhere. */
  lemma SoleBorrowerCanClear(s: System, es: seq<Event>, k: nat, tx: int, p: ReserveParams)
    requires Sound(s.reserve, s.clock) && EnabledRun(s, es, p) && PayoffsImmediate(es)
    requires k < |s.users| && SingleBorrower(es, k)
    requires s.users[k].scaledVariableDebt == s.reserve.scaledVariableDebt
    requires 0 < tx && Run(s, es, p).clock <= tx
    ensures var last := Run(s, es, p);
            && RepayDefined(MAX_UINT_AMOUNT, Variable, last.reserve, last.users[k], tx)
            && var after := AfterRepay(MAX_UINT_AMOUNT, Variable, last.reserve, last.users[k], tx, p);
               after.scaledVariableDebt == 0 && after.totalVariableDebt == 0
  {
    RunKeepsSole(s, es, k, p);
    var last := Run(s, es, p);
    SoundLater(last.reserve, last.clock, tx);
    assert last.reserve.scaledVariableDebt >= 0;
    hide RayMul, Run, Sound, RepayDefined, AfterRepay, UserAfterRepay, VariableDebtBalance;
    MaxRepayClears(MAX_UINT_AMOUNT, last.reserve, last.users[k], tx, tx, p);
    RayMulZero(AfterRepay(MAX_UINT_AMOUNT, Variable, last.reserve, last.users[k], tx, p).variableBorrowIndex);
  }

  /** With a second borrower the shares no longer add up: the first owes 100, the second borrows 50
      and is booked with 150. */
  lemma SecondBorrowerMisbooked(r: Reserve, after: Reserve, u: User, tx: int)
    requires r.scaledVariableDebt == 100 && u.scaledVariableDebt == 0 && after.variableBorrowIndex == RAY
    ensures UserAfterBorrow(50, Variable, r, after, u, tx, tx).scaledVariableDebt == 150
  {
    hide LTokenBalance, RayMul, NormalizedDebt;
    RayDivUnique(50, RAY, 50);
  }

  // ---------- Utilization ----------

  lemma AtMostRayIff(t: int, l: int, u: int)
    requires l > 0 && IsRounded(t * RAY, l, u)
    ensures u <= RAY <==> 2 * RAY * (t - l) < l
  {
    if u <= RAY {
      MulMono(u, RAY, l);
    } else {
      MulMono(RAY + 1, u, l);
      assert (RAY + 1) * l == RAY * l + l;
    }
  }

  /** A deposit keeps utilization within one ray exactly when the accrued debts exceed the recorded
      liquidity plus the deposit by less than that sum over two rays: the recorded liquidity
      misses the interest accrued since. */
  lemma DepositUtilizationIff(amount: int, r: Reserve, tx: int, p: ReserveParams)
    requires Sound(r, tx) && amount >= 0 && r.totalLiquidity + amount > 0
    ensures Priceable(DepositMoved(amount, r, tx))
    ensures AfterDeposit(amount, r, tx, p).utilizationRate <= RAY
       <==> 2 * RAY * (AccruedDebt(r, tx) - (r.totalLiquidity + amount)) < r.totalLiquidity + amount
  {
    hide RayMul, RayDiv, LiquidityIndex, VariableBorrowIndex, TotalStableDebt, RatesFor, UtilizationRate;
    DepositBalanced(amount, r, tx);
    RepricedSound(DepositMoved(amount, r, tx), tx, p);
    var moved := DepositMoved(amount, r, tx);
    UtilizationRounds(moved.totalStableDebt, moved.totalVariableDebt, moved.totalLiquidity);
    hide IsRounded;
    AtMostRayIff(AccruedDebt(r, tx), r.totalLiquidity + amount,
                 UtilizationRate(moved.totalStableDebt, moved.totalVariableDebt, moved.totalLiquidity));
  }

  /** Every action but a deposit (and setting collateral) leaves utilization within one ray. */
  lemma OtherActionsBoundUtilization(r: Reserve, u: User, e: Event, p: ReserveParams)
    requires Sound(r, e.tx) && 0 < e.tx <= e.current && ActionEnabled(r, u, e)
    requires !e.action.Deposit? && !e.action.SetUseAsCollateral?
    ensures 0 <= ReserveStep(r, u, e, p).utilizationRate <= RAY
  {
    hide RayMul, RayDiv, LiquidityIndex, VariableBorrowIndex, TotalStableDebt, RatesFor, UtilizationRate,
      StableDebtBalance,
      AverageStableRate, AverageStableRateRebalance, StableBurn, VariableDebtBalance, LTokenBalance, NormalizedDebt;
    var after := ReserveStep(r, u, e, p);
    assert after.totalLiquidity == after.availableLiquidity + after.totalStableDebt + after.totalVariableDebt;
    UtilizationAtMostRay(after.totalStableDebt, after.totalVariableDebt, after.totalLiquidity);
    assert after.utilizationRate == UtilizationRate(after.totalStableDebt, after.totalVariableDebt,
                                                    after.totalLiquidity);
  }
}
