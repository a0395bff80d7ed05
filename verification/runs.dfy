/** Runs of actions by any number of users over one reserve: the reserve and user predictions
    of test-suites/test-palmy/helpers/utils/calculations.ts chained step after step. */
module Runs {
  import opened FixedPoint
  import opened Interest
  import opened Rates
  import opened Records
  import opened Balances
  import opened ReserveSteps
  import opened UserSteps
  import opened Soundness

  datatype Action =
    | Deposit(amount: int)
    | Withdraw(amount: int)
    | Borrow(amount: int, mode: RateMode)
    | Repay(amount: int, mode: RateMode)
    | SwapRateMode(mode: RateMode)
    | RebalanceStableRate
    | SetUseAsCollateral(enabled: bool)

  /** One action by a user, included at `tx` and observed at `current`. */
  datatype Event = Event(actor: nat, action: Action, tx: int, current: int)

  datatype System = System(reserve: Reserve, users: seq<User>, clock: int)

  // ---------- Which events can happen ----------

  /** The cash an event takes out of the reserve (negative: puts in), as the reserve side computes it. */
  function CashOut(r: Reserve, u: User, e: Event): int {
    match e.action
    case Deposit(amount) => -amount
    case Withdraw(amount) => WithdrawAmount(amount, r, u, e.tx)
    case Borrow(amount, _) => amount
    case Repay(amount, mode) => -RepayAmount(amount, mode, r, u, e.tx)
    case _ => 0
  }

  /** Amounts are non-negative, within the available liquidity when cash leaves, and within the
      reserve's scaled debt when variable debt is repaid. Repaying stable debt needs no bound: it is
      clamped; swaps and rebalances are not. */
  ghost predicate ActionEnabled(r: Reserve, u: User, e: Event) {
    match e.action
    case Deposit(amount) => amount >= 0
    case Withdraw(_) => 0 <= CashOut(r, u, e) <= r.availableLiquidity
    case Borrow(amount, mode) =>
      && 0 <= amount <= r.availableLiquidity
      && (mode == Stable ==> UserStableDebt(u, e.tx) + amount != 0)
    case Repay(_, mode) =>
      && 0 <= -CashOut(r, u, e)
      && (mode != Stable ==> ScaledWithin(-CashOut(r, u, e), r, e.tx))
    case SwapRateMode(mode) =>
      && SwapWithin(r, u, mode, e.tx)
      && (mode != Stable ==> UserStableDebt(u, e.tx) + VariableDebtBalance(r, u, e.tx) != 0)
    case RebalanceStableRate => RebalanceWithin(r, u, e.tx)
    case SetUseAsCollateral(_) => true
  }

  ghost predicate Enabled(s: System, e: Event) {
    && e.actor < |s.users|
    && s.clock <= e.tx <= e.current && 0 < e.tx
    && ActionEnabled(s.reserve, s.users[e.actor], e)
  }

  // ---------- Steps ----------

  lemma SoundLater(r: Reserve, clock: int, later: int)
    requires Sound(r, clock) && clock <= later
    ensures Sound(r, later)
  {
  }

  /** What an event moves, before it sets the rates. */
  ghost function Moved(r: Reserve, u: User, e: Event): (moved: Reserve)
    requires Sound(r, e.tx) && 0 < e.tx && ActionEnabled(r, u, e) && !e.action.SetUseAsCollateral?
    ensures Balanced(moved, e.tx)
  {
    MovedBalanced(r, u, e);
    match e.action
    case Deposit(amount) => DepositMoved(amount, r, e.tx)
    case Withdraw(amount) => WithdrawMoved(WithdrawAmount(amount, r, u, e.tx), r, e.tx)
    case Borrow(amount, mode) => BorrowMoved(amount, mode, r, e.tx)
    case Repay(amount, mode) => RepayMoved(RepayAmount(amount, mode, r, u, e.tx), mode, r, u, e.tx)
    case SwapRateMode(mode) => SwapMoved(r, u, mode, e.tx)
    case RebalanceStableRate => RebalanceMoved(r, u, e.tx)
  }

  lemma MovedBalanced(r: Reserve, u: User, e: Event)
    requires Sound(r, e.tx) && 0 < e.tx && ActionEnabled(r, u, e) && !e.action.SetUseAsCollateral?
    ensures VariableBorrowIndex(r, e.tx) >= RAY
    ensures match e.action
            case Deposit(amount) => Balanced(DepositMoved(amount, r, e.tx), e.tx)
            case Withdraw(amount) => Balanced(WithdrawMoved(WithdrawAmount(amount, r, u, e.tx), r, e.tx), e.tx)
            case Borrow(amount, mode) => Balanced(BorrowMoved(amount, mode, r, e.tx), e.tx)
            case Repay(amount, mode) =>
              Balanced(RepayMoved(RepayAmount(amount, mode, r, u, e.tx), mode, r, u, e.tx), e.tx)
            case SwapRateMode(mode) => Balanced(SwapMoved(r, u, mode, e.tx), e.tx)
            case RebalanceStableRate => Balanced(RebalanceMoved(r, u, e.tx), e.tx)
  {
    hide LiquidityIndex, VariableBorrowIndex, DepositMoved, WithdrawMoved, BorrowMoved, RepayMoved, SwapMoved,
      RebalanceMoved, Sound, Balanced, RayMul;
    assert VariableBorrowIndex(r, e.tx) >= RAY by { IndexAtLeastRay(r, e.tx); }
    match e.action
    case Deposit(amount) => DepositBalanced(amount, r, e.tx);
    case Withdraw(amount) =>
      WithdrawAvailable(r, u, e);
      WithdrawBalanced(WithdrawAmount(amount, r, u, e.tx), r, e.tx);
    case Borrow(amount, mode) => BorrowBalanced(amount, mode, r, e.tx);
    case Repay(amount, mode) => RepayBalancedIff(RepayAmount(amount, mode, r, u, e.tx), mode, r, u, e.tx);
    case SwapRateMode(mode) => SwapBalancedIff(r, u, mode, e.tx);
    case RebalanceStableRate => RebalanceBalancedIff(r, u, e.tx);
  }

  lemma IndexAtLeastRay(r: Reserve, tx: int)
    requires Sound(r, tx)
    ensures VariableBorrowIndex(r, tx) >= RAY
  {
    hide RayMul;
    VariableBorrowIndexGrows(r, tx);
  }

  /** The reserve after an event. Its contract is the invariant: the result is sound, and neither
      index has decreased. */
  ghost function ReserveStep(r: Reserve, u: User, e: Event, p: ReserveParams): (after: Reserve)
    requires Sound(r, e.tx) && 0 < e.tx <= e.current && ActionEnabled(r, u, e)
    ensures Sound(after, e.tx)
    ensures after.liquidityIndex >= r.liquidityIndex && after.variableBorrowIndex >= r.variableBorrowIndex
    ensures after.availableLiquidity == r.availableLiquidity - CashOut(r, u, e)
  {
    StepSound(r, u, e, p);
    match e.action
    case Deposit(amount) => AfterDeposit(amount, r, e.tx, p)
    case Withdraw(amount) => AfterWithdraw(amount, r, u, e.tx, p)
    case Borrow(amount, mode) => AfterBorrow(amount, mode, r, e.tx, e.current, p)
    case Repay(amount, mode) => AfterRepay(amount, mode, r, u, e.tx, p)
    case SwapRateMode(mode) => AfterSwapRateMode(r, u, mode, e.tx, p)
    case RebalanceStableRate => AfterRebalance(r, u, e.tx, p)
    case SetUseAsCollateral(_) => r
  }

  lemma StepSound(r: Reserve, u: User, e: Event, p: ReserveParams)
    requires Sound(r, e.tx) && 0 < e.tx <= e.current && ActionEnabled(r, u, e)
    ensures LiquidityIndex(r, e.tx) >= r.liquidityIndex && VariableBorrowIndex(r, e.tx) >= r.variableBorrowIndex
    ensures match e.action
            case Deposit(amount) =>
              Priceable(DepositMoved(amount, r, e.tx)) && Sound(AfterDeposit(amount, r, e.tx, p), e.tx)
            case Withdraw(amount) =>
              && Priceable(WithdrawMoved(WithdrawAmount(amount, r, u, e.tx), r, e.tx))
              && Sound(AfterWithdraw(amount, r, u, e.tx, p), e.tx)
            case Borrow(amount, mode) =>
              && BorrowDefined(amount, mode, r, e.tx, e.current, p)
              && Sound(AfterBorrow(amount, mode, r, e.tx, e.current, p), e.tx)
            case Repay(amount, mode) =>
              RepayDefined(amount, mode, r, u, e.tx) && Sound(AfterRepay(amount, mode, r, u, e.tx, p), e.tx)
            case SwapRateMode(mode) =>
              SwapDefined(r, u, mode, e.tx) && Sound(AfterSwapRateMode(r, u, mode, e.tx, p), e.tx)
            case RebalanceStableRate =>
              Priceable(RebalanceMoved(r, u, e.tx)) && Sound(AfterRebalance(r, u, e.tx, p), e.tx)
            case SetUseAsCollateral(_) => true
  {
    hide LiquidityIndex, VariableBorrowIndex, DepositMoved, WithdrawMoved, BorrowMoved, RepayMoved, SwapMoved,
      RebalanceMoved, Repriced, Priceable, Sound, Balanced, RayMul;
    StepIndexes(r, e.tx);
    if e.action.Borrow? {
      BorrowSound(e.action.amount, e.action.mode, r, e.tx, e.current, p);
    } else if !e.action.SetUseAsCollateral? {
      MovedBalanced(r, u, e);
      RepricedSound(Moved(r, u, e), e.tx, p);
    }
  }

  lemma WithdrawAvailable(r: Reserve, u: User, e: Event)
    requires e.action.Withdraw? && ActionEnabled(r, u, e)
    ensures 0 <= WithdrawAmount(e.action.amount, r, u, e.tx) <= r.availableLiquidity
  {
  }

  lemma StepIndexes(r: Reserve, tx: int)
    requires Sound(r, tx)
    ensures LiquidityIndex(r, tx) >= r.liquidityIndex && VariableBorrowIndex(r, tx) >= r.variableBorrowIndex
  {
    LiquidityIndexGrows(r, tx);
    VariableBorrowIndexGrows(r, tx);
  }

  /** The acting user after an event. */
  ghost function UserStep(r: Reserve, u: User, e: Event, p: ReserveParams): User
    requires Sound(r, e.tx) && 0 < e.tx <= e.current && ActionEnabled(r, u, e)
  {
    var after := ReserveStep(r, u, e, p);
    match e.action
    case Deposit(amount) => UserAfterDeposit(amount, r, after, u, e.tx)
    case Withdraw(amount) => UserAfterWithdraw(amount, r, after, u, e.tx)
    case Borrow(amount, mode) => UserAfterBorrow(amount, mode, r, after, u, e.tx, e.current)
    case Repay(amount, mode) => UserAfterRepay(amount, mode, r, after, u, "user", "user", e.tx, e.current)
    case SwapRateMode(mode) => UserAfterSwapRateMode(r, after, u, mode, e.tx)
    case RebalanceStableRate => UserAfterRebalance(r, after, u, e.tx)
    case SetUseAsCollateral(enabled) => u.(usageAsCollateralEnabled := enabled)
  }

  ghost function Step(s: System, e: Event, p: ReserveParams): (s': System)
    requires Sound(s.reserve, s.clock) && Enabled(s, e)
    ensures Sound(s'.reserve, s'.clock) && s'.clock == e.tx
    ensures s'.reserve.liquidityIndex >= s.reserve.liquidityIndex
    ensures s'.reserve.variableBorrowIndex >= s.reserve.variableBorrowIndex
    ensures |s'.users| == |s.users|
  {
    SoundLater(s.reserve, s.clock, e.tx);
    var u := s.users[e.actor];
    System(ReserveStep(s.reserve, u, e, p), s.users[e.actor := UserStep(s.reserve, u, e, p)], e.tx)
  }

  // ---------- Runs ----------

  ghost predicate EnabledRun(s: System, es: seq<Event>, p: ReserveParams)
    requires Sound(s.reserve, s.clock)
    decreases |es|
  {
    es != [] ==> Enabled(s, es[0]) && EnabledRun(Step(s, es[0], p), es[1..], p)
  }

  /** The state after a run. Over every run the reserve stays sound (indexes of at least one ray;
      debts, rates, scaled debt and available liquidity non-negative) and both indexes only grow. */
  ghost function Run(s: System, es: seq<Event>, p: ReserveParams): (s': System)
    requires Sound(s.reserve, s.clock) && EnabledRun(s, es, p)
    ensures Sound(s'.reserve, s'.clock) && |s'.users| == |s.users|
    ensures s'.reserve.liquidityIndex >= s.reserve.liquidityIndex
    ensures s'.reserve.variableBorrowIndex >= s.reserve.variableBorrowIndex
    decreases |es|
  {
    hide Sound;
    if es == [] then s else Run(Step(s, es[0], p), es[1..], p)
  }

  /** A reserve just initialized: unit indexes, no debt and no liquidity. */
  function InitialReserve(marketStableRate: int): Reserve {
    Reserve(0, 0, 0, 0, 0, 0, 0, 0, 0, 0, RAY, RAY, marketStableRate, 0, 0, 0)
  }

  /** Every state reachable from the initialized reserve keeps the invariant. */
  lemma ReachableSound(users: seq<User>, marketStableRate: int, es: seq<Event>, p: ReserveParams)
    requires marketStableRate >= 0
    ensures Sound(InitialReserve(marketStableRate), 0)
    ensures var s := System(InitialReserve(marketStableRate), users, 0);
            EnabledRun(s, es, p) ==>
              var r := Run(s, es, p).reserve;
              && r.liquidityIndex >= RAY && r.variableBorrowIndex >= RAY
              && r.availableLiquidity >= 0 && r.scaledVariableDebt >= 0 && r.principalStableDebt >= 0
              && r.totalStableDebt >= 0 && r.totalVariableDebt >= 0
              && r.liquidityRate >= 0 && r.stableBorrowRate >= 0
              && r.variableBorrowRate >= 0 && r.averageStableBorrowRate >= 0
  {
    assert Sound(InitialReserve(marketStableRate), 0);
    var s := System(InitialReserve(marketStableRate), users, 0);
    if EnabledRun(s, es, p) {
      assert Sound(Run(s, es, p).reserve, Run(s, es, p).clock);
    }
  }

  // ---------- Interest is shared fairly after every action ----------

  /** Borrows observed when they are included: only a borrow records its totals later than it prices. */
  ghost predicate BorrowsImmediate(es: seq<Event>) {
    forall i :: 0 <= i < |es| && es[i].action.Borrow? ==> es[i].tx == es[i].current
  }

  /** The record an event sets its rates for: what it moved, priced at its inclusion. It is solvent. */
  ghost function PricedBy(r: Reserve, u: User, e: Event, p: ReserveParams): (priced: Reserve)
    requires Sound(r, e.tx) && 0 < e.tx && ActionEnabled(r, u, e) && !e.action.SetUseAsCollateral?
    ensures Sound(priced, e.tx) && Solvent(priced, p)
  {
    RepricedSound(Moved(r, u, e), e.tx, p);
    Repriced(Moved(r, u, e), p)
  }

  /** The recorded reserve is the priced one, except that its debts may have grown since. */
  ghost predicate OnlyGrown(r: Reserve, priced: Reserve) {
    && r == priced.(totalStableDebt := r.totalStableDebt, totalVariableDebt := r.totalVariableDebt,
                    totalLiquidity := r.totalLiquidity, utilizationRate := r.utilizationRate)
    && r.totalStableDebt >= priced.totalStableDebt && r.totalVariableDebt >= priced.totalVariableDebt
    && r.totalLiquidity - priced.totalLiquidity
       == r.totalStableDebt - priced.totalStableDebt + r.totalVariableDebt - priced.totalVariableDebt
  }

  /** A step records what it priced; a borrow observed later records debts that have grown. */
  lemma StepPrices(r: Reserve, u: User, e: Event, p: ReserveParams)
    requires Sound(r, e.tx) && 0 < e.tx <= e.current && ActionEnabled(r, u, e) && !e.action.SetUseAsCollateral?
    ensures OnlyGrown(ReserveStep(r, u, e, p), PricedBy(r, u, e, p))
    ensures !(e.action.Borrow? && e.tx < e.current) ==> ReserveStep(r, u, e, p) == PricedBy(r, u, e, p)
  {
    hide RayMul, RayDiv, LiquidityIndex, VariableBorrowIndex, AverageStableRate, StableDebtBalance, UtilizationRate,
      RatesFor, TotalStableDebt, NormalizedDebt, OverallBorrowRate, EarningsDust, DepositMoved, WithdrawMoved,
      RepayMoved, SwapMoved, RebalanceMoved, Solvent;
    if e.action.Borrow? {
      BorrowSound(e.action.amount, e.action.mode, r, e.tx, e.current, p);
      BorrowBalanced(e.action.amount, e.action.mode, r, e.tx);
      if e.tx == e.current {
        BorrowWithoutDelay(e.action.amount, e.action.mode, r, e.tx, p);
      }
    }
  }

  /** The record that the rates at the end of a run were set for: that of the last event that sets
      any, or of the start. */
  ghost function LastPriced(s: System, es: seq<Event>, p: ReserveParams, priced: Reserve): Reserve
    requires Sound(s.reserve, s.clock) && EnabledRun(s, es, p)
    decreases |es|
  {
    if es == [] then priced
    else
      SoundLater(s.reserve, s.clock, es[0].tx);
      LastPriced(Step(s, es[0], p), es[1..], p,
                 if es[0].action.SetUseAsCollateral? then priced
                 else PricedBy(s.reserve, s.users[es[0].actor], es[0], p))
  }

  lemma {:induction false} RunPrices(s: System, es: seq<Event>, p: ReserveParams, priced: Reserve)
    requires Sound(s.reserve, s.clock) && EnabledRun(s, es, p)
    requires Solvent(priced, p) && OnlyGrown(s.reserve, priced)
    ensures var last := LastPriced(s, es, p, priced);
            && Solvent(last, p) && OnlyGrown(Run(s, es, p).reserve, last)
            && (BorrowsImmediate(es) && s.reserve == priced ==> Run(s, es, p).reserve == last)
    decreases |es|
  {
    hide Solvent, ReserveStep, PricedBy, OnlyGrown;
    if es != [] {
      var e := es[0];
      SoundLater(s.reserve, s.clock, e.tx);
      var next := priced;
      if !e.action.SetUseAsCollateral? {
        next := PricedBy(s.reserve, s.users[e.actor], e, p);
        StepPrices(s.reserve, s.users[e.actor], e, p);
      } else {
        assert Step(s, e, p).reserve == s.reserve by { NothingPriced(s.reserve, s.users[e.actor], e, p); }
      }
      if BorrowsImmediate(es) {
        assert es[0].action.Borrow? ==> es[0].tx == es[0].current;
        TailIsSuffix(es);
      }
      hide Sound;
      RunPrices(Step(s, e, p), es[1..], p, next);
    }
  }

  lemma NothingPriced(r: Reserve, u: User, e: Event, p: ReserveParams)
    requires Sound(r, e.tx) && 0 < e.tx <= e.current && ActionEnabled(r, u, e) && e.action.SetUseAsCollateral?
    ensures ReserveStep(r, u, e, p) == r
  {
  }

  /** Over every run, whenever its events are observed, the rates are those of the record they were
      last set for, at whose debts depositors are promised their share of what borrowers pay, within
      dust, and never more; since then debts have only grown. When borrows are observed without delay
      that record is the reserve itself. */
  lemma RunSolvent(s: System, es: seq<Event>, p: ReserveParams)
    requires Sound(s.reserve, s.clock) && EnabledRun(s, es, p) && Solvent(s.reserve, p)
    ensures Solvent(LastPriced(s, es, p, s.reserve), p)
    ensures OnlyGrown(Run(s, es, p).reserve, LastPriced(s, es, p, s.reserve))
    ensures BorrowsImmediate(es) ==> Run(s, es, p).reserve == LastPriced(s, es, p, s.reserve)
  {
    hide Solvent, Sound, EnabledRun, Run, LastPriced;
    RunPrices(s, es, p, s.reserve);
  }

  /** An initialized reserve is solvent, so this holds of every run from there. */
  lemma InitialSolvent(marketStableRate: int, p: ReserveParams)
    ensures Solvent(InitialReserve(marketStableRate), p)
  {
    EmptySolvent(InitialReserve(marketStableRate), p);
  }

  lemma TailIsSuffix(es: seq<Event>)
    requires es != []
    ensures forall i :: 0 <= i < |es[1..]| ==> es[1..][i] == es[i + 1]
  {
  }

  // ---------- Cash ----------

  function Wallets(users: seq<User>): int {
    if users == [] then 0 else users[0].walletBalance + Wallets(users[1..])
  }

  function TotalCash(s: System): int {
    s.reserve.availableLiquidity + Wallets(s.users)
  }

  lemma {:induction false} WalletsUpdate(users: seq<User>, k: nat, u: User)
    requires k < |users|
    ensures Wallets(users[k := u]) == Wallets(users) - users[k].walletBalance + u.walletBalance
  {
    if k > 0 {
      WalletsUpdate(users[1..], k - 1, u);
      assert users[k := u][1..] == users[1..][k - 1 := u];
    } else {
      assert users[0 := u][1..] == users[1..];
    }
  }

  /** An action moves cash between the actor's wallet and the reserve and makes or loses none,
      except that a repayment is worth its amount at inclusion to the reserve and its amount when
      observed to the payer: cash is conserved exactly when the two agree. */
  lemma StepCash(s: System, e: Event, p: ReserveParams)
    requires Sound(s.reserve, s.clock) && Enabled(s, e)
    ensures var u := s.users[e.actor];
            var drift := if e.action.Repay? then
                           RepayAmount(e.action.amount, e.action.mode, s.reserve, u, e.tx)
                           - RepayAmount(e.action.amount, e.action.mode, s.reserve, u, e.current)
                         else 0;
            TotalCash(Step(s, e, p)) == TotalCash(s) + drift
    ensures PayoffImmediate(e) ==> TotalCash(Step(s, e, p)) == TotalCash(s)
  {
    SoundLater(s.reserve, s.clock, e.tx);
    var u := s.users[e.actor];
    hide Sound, Balanced;
    WalletsUpdate(s.users, e.actor, UserStep(s.reserve, u, e, p));
    WalletMoves(s.reserve, u, e, p);
  }

  lemma WalletMoves(r: Reserve, u: User, e: Event, p: ReserveParams)
    requires Sound(r, e.tx) && 0 < e.tx <= e.current && ActionEnabled(r, u, e)
    ensures UserStep(r, u, e, p).walletBalance
         == u.walletBalance
            + if e.action.Repay? then -RepayAmount(e.action.amount, e.action.mode, r, u, e.current)
              else CashOut(r, u, e)
  {
    hide ReserveStep, RayMul, RayDiv, LTokenBalance, VariableDebtBalance, StableDebtBalance, NormalizedDebt,
      UserStableRate;
  }

  /** Maximal repayments observed when they are included: only they are worth a different amount later. */
  ghost predicate PayoffsImmediate(es: seq<Event>) {
    forall i :: 0 <= i < |es| ==> PayoffImmediate(es[i])
  }

  ghost predicate PayoffImmediate(e: Event) {
    e.action.Repay? && Abs(e.action.amount) == MAX_UINT_AMOUNT ==> e.tx == e.current
  }

  /** Cash is conserved over every run, by all users together, as long as maximal repayments are
      observed without delay. */
  lemma {:induction false} RunConservesCash(s: System, es: seq<Event>, p: ReserveParams)
    requires Sound(s.reserve, s.clock) && EnabledRun(s, es, p) && PayoffsImmediate(es)
    ensures TotalCash(Run(s, es, p)) == TotalCash(s)
    decreases |es|
  {
    if es != [] {
      assert PayoffImmediate(es[0]);
      StepCash(s, es[0], p);
      TailIsSuffix(es);
      hide Sound;
      RunConservesCash(Step(s, es[0], p), es[1..], p);
    }
  }

  // ---------- Users ----------

  /** A user record in order. */
  ghost predicate UserSound(u: User, clock: int) {
    && u.scaledLTokenBalance >= 0 && u.scaledVariableDebt >= 0
    && u.principalStableDebt >= 0 && u.currentStableDebt >= 0
    && u.stableBorrowRate >= 0 && u.stableRateLastUpdated <= clock
  }

  /** What leaves or pays back stays within the user's own balances: a repayment as the payer values
      it when it is observed. */
  ghost predicate WithinOwn(r: Reserve, u: User, e: Event) {
    match e.action
    case Withdraw(_) => CashOut(r, u, e) <= LTokenBalance(r, u, e.tx)
    case Repay(amount, mode) =>
      RepayAmount(amount, mode, r, u, e.current)
      <= if mode == Stable then UserStableDebt(u, e.current) else VariableDebtBalance(r, u, e.tx)
    case _ => true
  }

  lemma UserStepSound(r: Reserve, u: User, e: Event, p: ReserveParams)
    requires Sound(r, e.tx) && 0 < e.tx <= e.current && ActionEnabled(r, u, e) && WithinOwn(r, u, e)
    requires UserSound(u, e.tx)
    ensures UserSound(UserStep(r, u, e, p), e.tx)
  {
    hide RayMul, RayDiv, LiquidityIndex, VariableBorrowIndex, NormalizedDebt, NormalizedIncome, StableDebtBalance,
      UserStableRate,
      RatesFor, UtilizationRate, TotalStableDebt, AverageStableRate, AverageStableRateRebalance, StableBurn;
    StableDebtGrows(u.principalStableDebt, u.stableBorrowRate, u.stableRateLastUpdated, e.tx);
    StableDebtGrows(u.principalStableDebt, u.stableBorrowRate, u.stableRateLastUpdated, e.current);
    StepIndexes(r, e.tx);
    NormalizedDebtGrows(r.variableBorrowRate, r.variableBorrowIndex, r.lastUpdateTimestamp, e.tx);
    RayMulGrows(u.scaledVariableDebt,
                NormalizedDebt(r.variableBorrowRate, r.variableBorrowIndex, r.lastUpdateTimestamp, e.tx));
    match e.action
    case Deposit(amount) =>
      RayDivRounds(amount, LiquidityIndex(r, e.tx));
      RayDivZero(LiquidityIndex(r, e.tx));
      hide IsRounded;
    case Withdraw(amount) =>
      WithdrawWithin(CashOut(r, u, e), r, u, e.tx);
    case Borrow(amount, mode) =>
      if mode == Stable {
        UserRateNonNegative(UserStableDebt(u, e.tx), u.stableBorrowRate, amount, r.stableBorrowRate);
        StableDebtGrows(UserStableDebt(u, e.tx) + amount, UserStep(r, u, e, p).stableBorrowRate, e.tx, e.current);
      } else {
        RayDivRounds(amount, VariableBorrowIndex(r, e.tx));
        hide IsRounded;
      }
    case Repay(amount, mode) =>
      if mode != Stable {
        PayerWithin(amount, mode, r, u, e.tx, e.current);
      }
    case SwapRateMode(mode) =>
      if mode == Stable {
        RayDivRounds(UserStableDebt(u, e.tx), VariableBorrowIndex(r, e.tx));
        hide IsRounded;
      } else {
        UserRateNonNegative(UserStableDebt(u, e.tx), u.stableBorrowRate, VariableDebtBalance(r, u, e.tx),
                            r.stableBorrowRate);
      }
    case RebalanceStableRate =>
    case SetUseAsCollateral(_) =>
  }

  lemma UserRateNonNegative(balance: int, rate: int, amount: int, rateNew: int)
    requires balance >= 0 && rate >= 0 && amount >= 0 && rateNew >= 0 && balance + amount != 0
    ensures UserStableRate(balance, rate, amount, rateNew) >= 0
  {
    ProductNonNegative(balance, rate);
    ProductNonNegative(amount, rateNew);
    TruncDivFloor(balance * rate + amount * rateNew, balance + amount);
  }

  /** A withdrawal within the balance takes at most the scaled balance. */
  lemma WithdrawWithin(amount: int, r: Reserve, u: User, tx: int)
    requires Sound(r, tx) && u.scaledLTokenBalance >= 0 && 0 <= amount <= LTokenBalance(r, u, tx)
    ensures LiquidityIndex(r, tx) >= RAY
    ensures 0 <= RayDiv(amount, LiquidityIndex(r, tx)) <= u.scaledLTokenBalance
    ensures RayDiv(0, LiquidityIndex(r, tx)) == 0
  {
    hide RayMul, RayDiv;
    LiquidityIndexGrows(r, tx);
    assert r.liquidityRate * (tx - r.lastUpdateTimestamp) < ONE_YEAR || r.utilizationRate != 0 by {
      if r.utilizationRate == 0 { assert 0 * (tx - r.lastUpdateTimestamp) == 0; }
    }
    IncomeIndexesAgree(r, tx);
    UnscaleWithin(amount, u.scaledLTokenBalance, LiquidityIndex(r, tx));
    RayDivZero(LiquidityIndex(r, tx));
  }

  /** A variable repayment within both the user's debt and the reserve's takes at most the user's
      scaled debt, also where the two early-outs of the debt index disagree. */
  lemma RepayWithin(amount: int, r: Reserve, u: User, tx: int)
    requires Sound(r, tx) && u.scaledVariableDebt >= 0 && 0 <= amount <= VariableDebtBalance(r, u, tx)
    requires ScaledWithin(amount, r, tx)
    ensures VariableBorrowIndex(r, tx) >= RAY
    ensures 0 <= RayDiv(amount, VariableBorrowIndex(r, tx)) <= u.scaledVariableDebt
  {
    hide RayMul, RayDiv, IsRounded;
    VariableBorrowIndexGrows(r, tx);
    if r.totalVariableDebt != 0 || r.variableBorrowRate == 0 {
      DebtIndexesAgree(r, tx);
      UnscaleWithin(amount, u.scaledVariableDebt, VariableBorrowIndex(r, tx));
    } else {
      RayDivRounds(amount, VariableBorrowIndex(r, tx));
    }
  }

  /** The amount the payer is charged when observed, if it is within the user's debt at inclusion. */
  lemma PayerWithin(amount: int, mode: RateMode, r: Reserve, u: User, tx: int, current: int)
    requires Sound(r, tx) && u.scaledVariableDebt >= 0 && tx <= current && mode != Stable
    requires RepayAmount(amount, mode, r, u, tx) >= 0 && ScaledWithin(RepayAmount(amount, mode, r, u, tx), r, tx)
    requires RepayAmount(amount, mode, r, u, current) <= VariableDebtBalance(r, u, tx)
    ensures VariableBorrowIndex(r, tx) >= RAY
    ensures RayDiv(RepayAmount(amount, mode, r, u, current), VariableBorrowIndex(r, tx)) <= u.scaledVariableDebt
  {
    hide RayMul, RayDiv, VariableDebtBalance, VariableBorrowIndex;
    VariableBorrowIndexGrows(r, tx);
    VariableDebtMono(r, u, tx, current);
    var paid := RepayAmount(amount, mode, r, u, current);
    RayDivMono(paid, RepayAmount(amount, mode, r, u, tx), VariableBorrowIndex(r, tx));
    RepayWithin(paid, r, u, tx);
  }

  ghost predicate UsersSound(s: System) {
    forall k :: 0 <= k < |s.users| ==> UserSound(s.users[k], s.clock)
  }

  ghost predicate WithinOwnRun(s: System, es: seq<Event>, p: ReserveParams)
    requires Sound(s.reserve, s.clock) && EnabledRun(s, es, p)
    decreases |es|
  {
    es != [] ==>
      && WithinOwn(s.reserve, s.users[es[0].actor], es[0])
      && WithinOwnRun(Step(s, es[0], p), es[1..], p)
  }

  /** Over every run whose amounts stay within the users' own balances, no user's scaled balances,
      debts or rates become negative. */
  lemma {:induction false} RunUsersSound(s: System, es: seq<Event>, p: ReserveParams)
    requires Sound(s.reserve, s.clock) && EnabledRun(s, es, p) && WithinOwnRun(s, es, p)
    requires UsersSound(s)
    ensures UsersSound(Run(s, es, p))
    decreases |es|
  {
    if es != [] {
      var e := es[0];
      SoundLater(s.reserve, s.clock, e.tx);
      assert UserSound(s.users[e.actor], s.clock);
      UserStepSound(s.reserve, s.users[e.actor], e, p);
      hide Sound;
      assert UsersSound(Step(s, e, p)) by { hide UserStep, ReserveStep; }
      RunUsersSound(Step(s, e, p), es[1..], p);
    }
  }
}
