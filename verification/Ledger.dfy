/**
 The margin and position ledger of PerpetualV1 as a state machine on values. Each operation maps a
 state to the next one, or to None when the contract reverts (and so leaves its storage alone).
 */
module Ledger {
  import opened Options
  import opened SignedMath
  import opened BaseMath
  import opened BalanceMath

  const UINT32: int := 0x1_0000_0000
  const UINT128: int := 0x1_0000_0000_0000_0000_0000_0000_0000_0000
  const ADDRESS_SPACE: nat := 0x1_0000000000_0000000000_0000000000_0000000000

  type Uint32 = n: nat | n < UINT32
  type Uint128 = n: nat | n < UINT128
  type Address = a: nat | a < ADDRESS_SPACE

  /** Accumulated funding per unit of position, and the time it was computed. */
  datatype Index = Index(timestamp: Uint32, isPositive: bool, value: Uint128) {
    function ToInt(): int {
      Int(value, isPositive).ToInt()
    }
  }

  const EMPTY_INDEX := Index(0, false, 0)

  datatype Context = Context(price: nat, minCollateral: nat, index: Index)

  /** What a call sees of the outside: the block time, the oracle's price and the funder's answer. */
  datatype Env = Env(now: nat, price: nat, funding: Int)

  datatype State = State(
    self: Address,
    balances: map<Address, Balance>,
    localIndexes: map<Address, Index>,
    globalOperators: set<Address>,
    localOperators: set<(Address, Address)>,
    globalIndex: Index,
    minCollateral: nat,
    finalSettlementEnabled: bool,
    finalSettlementPrice: nat,
    tokenBalance: nat)
  {
    /** A mapping in storage is zero wherever it was never written. */
    function BalanceOf(account: Address): Balance {
      if account in balances then balances[account] else EMPTY_BALANCE
    }

    function IndexOf(account: Address): Index {
      if account in localIndexes then localIndexes[account] else EMPTY_INDEX
    }

    predicate HasAccountPermissions(account: Address, operator: Address) {
      account == operator || operator in globalOperators || (account, operator) in localOperators
    }
  }

  function Initial(self: Address, now: nat, minCollateral: nat): State {
    State(self, map[], map[], {}, {}, Index(now % UINT32, false, 0), minCollateral, false, 0, 0)
  }

  // ---------- Settlement ----------

  /** Moves the global index to the current block. */
  function LoadContext(s: State, env: Env): Option<(State, Context)> {
    var index := s.globalIndex;
    if env.now < index.timestamp then
      None
    else if env.now == index.timestamp then
      Some((s, Context(env.price, s.minCollateral, index)))
    else
      var fundingValue := BaseMul(env.funding.value, env.price);
      var signedIndex := Int(index.value, index.isPositive);
      var moved := if env.funding.isPositive then Add(signedIndex, fundingValue) else Sub(signedIndex, fundingValue);
      if env.now < UINT32 && moved.value < UINT128 then
        var newIndex := Index(env.now, moved.isPositive, moved.value);
        Some((s.(globalIndex := newIndex), Context(env.price, s.minCollateral, newIndex)))
      else
        None
  }

  function IndexDiff(newIndex: Index, oldIndex: Index): (r: Int)
    ensures r.ToInt() == newIndex.ToInt() - oldIndex.ToInt()
  {
    var diff := Int(newIndex.value, newIndex.isPositive);
    if oldIndex.isPositive then Sub(diff, oldIndex.value) else Add(diff, oldIndex.value)
  }

  /** Applies a funding payment: credits are rounded down and debits up. */
  function ApplyFunding(b: Balance, diff: Int): Option<Balance> {
    if diff.isPositive != b.positionIsPositive then
      AddToMargin(b, BaseMul(diff.value, b.position))
    else
      SubFromMargin(b, BaseMulRoundUp(diff.value, b.position))
  }

  function SettleAccount(s: State, newIndex: Index, account: Address): Option<State> {
    var oldIndex := s.IndexOf(account);
    var balance := s.BalanceOf(account);
    if oldIndex.timestamp == newIndex.timestamp then
      Some(s)
    else
      var s' := s.(localIndexes := s.localIndexes[account := newIndex]);
      if balance.position == 0 then
        Some(s')
      else
        var settled :- ApplyFunding(balance, IndexDiff(newIndex, oldIndex));
        Some(s'.(balances := s.balances[account := settled]))
  }

  function SettleAccounts(s: State, newIndex: Index, accounts: seq<Address>): Option<State>
    decreases |accounts|
  {
    if accounts == [] then
      Some(s)
    else
      var s' :- SettleAccount(s, newIndex, accounts[0]);
      SettleAccounts(s', newIndex, accounts[1..])
  }

  // ---------- Margin ----------

  /** A standard token: sending to itself moves nothing, and nobody can send more than they hold. */
  function SendTokens(s: State, to: Address, amount: nat): Option<State> {
    if amount > s.tokenBalance then
      None
    else
      Some(s.(tokenBalance := if to == s.self then s.tokenBalance else s.tokenBalance - amount))
  }

  function Deposit(s: State, env: Env, account: Address, amount: nat): Option<State> {
    var _ :- Require(!s.finalSettlementEnabled);
    var (s1, context) :- LoadContext(s, env);
    var s2 :- SettleAccount(s1, context.index, account);
    var balance :- AddToMargin(s2.BalanceOf(account), amount);
    Some(s2.(tokenBalance := s2.tokenBalance + amount, balances := s2.balances[account := balance]))
  }

  function Withdraw(s: State, env: Env, sender: Address, account: Address, destination: Address, amount: nat)
    : Option<State>
  {
    var _ :- Require(!s.finalSettlementEnabled);
    var _ :- Require(s.HasAccountPermissions(account, sender));
    var (s1, context) :- LoadContext(s, env);
    var s2 :- SettleAccount(s1, context.index, account);
    var s3 :- SendTokens(s2, destination, amount);
    var balance :- SubFromMargin(s3.BalanceOf(account), amount);
    var _ :- Require(IsCollateralized(balance, context.price, context.minCollateral));
    Some(s3.(balances := s3.balances[account := balance]))
  }

  // ---------- Trade ----------

  /** What a trader contract returns. A flags word is the set of its bits. */
  datatype TradeResult = TradeResult(marginAmount: nat, positionAmount: nat, isBuy: bool, traderFlags: set<nat>)

  /** What a trader contract can read when it is called in the middle of a batch. */
  datatype TraderView = TraderView(
    state: State, now: nat, sender: Address, maker: Address, taker: Address, price: nat, traderFlags: set<nat>)

  /** A trader is any function of what it can read, and may revert. */
  datatype TradeArg = TradeArg(
    takerIndex: nat, makerIndex: nat, trader: Address, execute: TraderView -> Option<TradeResult>)

  predicate VerifyAccounts(accounts: seq<Address>) {
    |accounts| > 0 && forall i :: 1 <= i < |accounts| ==> accounts[i - 1] < accounts[i]
  }

  /** The maker's or taker's new balance. `receivesMargin` tells which way the margin goes. */
  function MoveBalance(b: Balance, r: TradeResult, receivesMargin: bool): Option<Balance> {
    if receivesMargin then
      var b1 :- AddToMargin(b, r.marginAmount);
      SubFromPosition(b1, r.positionAmount)
    else
      var b1 :- SubFromMargin(b, r.marginAmount);
      AddToPosition(b1, r.positionAmount)
  }

  function MoveBoth(maker: Balance, taker: Balance, r: TradeResult): Option<(Balance, Balance)> {
    var maker' :- MoveBalance(maker, r, r.isBuy);
    var taker' :- MoveBalance(taker, r, !r.isBuy);
    Some((maker', taker'))
  }

  /** Updates both parties; a trade with oneself changes no balance. */
  function ApplyResult(s: State, maker: Address, taker: Address, r: TradeResult): Option<State> {
    if maker == taker then
      Some(s)
    else
      var moved :- MoveBoth(s.BalanceOf(maker), s.BalanceOf(taker), r);
      Some(s.(balances := s.balances[maker := moved.0][taker := moved.1]))
  }

  /** The two parties' amounts move in opposite directions, and nobody else is touched. */
  lemma ApplyResultMoves(s: State, maker: Address, taker: Address, r: TradeResult)
    requires maker != taker && ApplyResult(s, maker, taker, r).Some?
    ensures var s' := ApplyResult(s, maker, taker, r).value;
      && Moved(s.BalanceOf(maker), s'.BalanceOf(maker), r, r.isBuy)
      && Moved(s.BalanceOf(taker), s'.BalanceOf(taker), r, !r.isBuy)
      && forall a: Address :: a != maker && a != taker ==> s'.BalanceOf(a) == s.BalanceOf(a)
  {
  }

  /** One party gave the trade's margin for its position, or the other way round. */
  ghost predicate Moved(b: Balance, b': Balance, r: TradeResult, receivesMargin: bool) {
    var sign := if receivesMargin then 1 else -1;
    && b'.Margin() == b.Margin() + sign * r.marginAmount
    && b'.Position() == b.Position() - sign * r.positionAmount
  }

  function RunTrade(s: State, env: Env, sender: Address, accounts: seq<Address>, arg: TradeArg, flags: set<nat>)
    : Option<(State, set<nat>)>
  {
    var _ :- Require(arg.trader in s.globalOperators);
    if arg.makerIndex >= |accounts| || arg.takerIndex >= |accounts| then
      None
    else
      var maker, taker := accounts[arg.makerIndex], accounts[arg.takerIndex];
      var result :- arg.execute(TraderView(s, env.now, sender, maker, taker, env.price, flags));
      var s' :- ApplyResult(s, maker, taker, result);
      Some((s', flags + result.traderFlags))
  }

  function RunTrades(
    s: State, env: Env, sender: Address, accounts: seq<Address>, trades: seq<TradeArg>, flags: set<nat>): Option<State>
    decreases |trades|
  {
    if trades == [] then
      Some(s)
    else
      var (s', flags') :- RunTrade(s, env, sender, accounts, trades[0], flags);
      RunTrades(s', env, sender, accounts, trades[1..], flags')
  }

  /** The final check of one account, branch by branch. */
  predicate AccountAllowed(initial: Balance, current: Balance, price: nat, minCollateral: nat) {
    IsCollateralized(current, price, minCollateral) ||
    var (currentPos, currentNeg) := GetPositiveAndNegativeValue(current, price);
    var (initialPos, initialNeg) := GetPositiveAndNegativeValue(initial, price);
    && currentPos != 0
    && current.position <= initial.position
    && current.positionIsPositive == initial.positionIsPositive
    && initialNeg != 0
    && if current.positionIsPositive then
         BaseDivMul(currentNeg, initialPos) <= BaseDivMul(initialNeg, currentPos)
       else
         BaseDivMul(initialPos, currentNeg) <= BaseDivMul(currentPos, initialNeg)
  }

  predicate AccountsAllowed(initial: State, current: State, accounts: seq<Address>, price: nat, minCollateral: nat) {
    forall i :: 0 <= i < |accounts| ==>
      AccountAllowed(initial.BalanceOf(accounts[i]), current.BalanceOf(accounts[i]), price, minCollateral)
  }

  /** The batch before its final check: the settled state, the traded state and the context. */
  function ExecuteBatch(s: State, env: Env, sender: Address, accounts: seq<Address>, trades: seq<TradeArg>)
    : Option<(State, State, Context)>
  {
    var _ :- Require(!s.finalSettlementEnabled);
    var _ :- Require(VerifyAccounts(accounts));
    var (s1, context) :- LoadContext(s, env);
    var settled :- SettleAccounts(s1, context.index, accounts);
    var traded :- RunTrades(settled, env, sender, accounts, trades, {});
    Some((settled, traded, context))
  }

  function Trade(s: State, env: Env, sender: Address, accounts: seq<Address>, trades: seq<TradeArg>): Option<State> {
    var (settled, traded, context) :- ExecuteBatch(s, env, sender, accounts, trades);
    var _ :- Require(AccountsAllowed(settled, traded, accounts, context.price, context.minCollateral));
    Some(traded)
  }

  // ---------- Final settlement and administration ----------

  function EnableFinalSettlement(s: State, env: Env, priceLowerBound: nat, priceUpperBound: nat): Option<State> {
    var _ :- Require(!s.finalSettlementEnabled);
    var (s1, context) :- LoadContext(s, env);
    var _ :- Require(priceLowerBound <= context.price <= priceUpperBound);
    Some(s1.(finalSettlementPrice := context.price, finalSettlementEnabled := true))
  }

  /** Also returns the number of tokens sent to the caller. */
  function WithdrawFinalSettlement(s: State, caller: Address): Option<(State, nat)> {
    var _ :- Require(s.finalSettlementEnabled);
    var settled :- SettleAccount(s, s.globalIndex, caller);
    PayOut(settled, caller)
  }

  /** Closes a settled account at the final price, as far as the contract's tokens go. */
  function PayOut(s: State, caller: Address): Option<(State, nat)> {
    var (positive, negative) := GetPositiveAndNegativeValue(s.BalanceOf(caller), s.finalSettlementPrice);
    if positive < negative then
      Some((s, 0))
    else
      var accountValue := (positive - negative) / BASE;
      var amount := BaseMath.Min(s.tokenBalance, accountValue);
      var remaining := accountValue - amount;
      var _ :- Require(remaining < UINT120);
      var balance := Balance(remaining != 0, false, remaining, 0);
      var s' :- SendTokens(s.(balances := s.balances[caller := balance]), caller, amount);
      Some((s', amount))
  }

  function SetMinCollateral(s: State, minCollateral: nat): Option<State> {
    if minCollateral >= BASE then Some(s.(minCollateral := minCollateral)) else None
  }

  function SetGlobalOperator(s: State, operator: Address, approved: bool): State {
    s.(globalOperators := if approved then s.globalOperators + {operator} else s.globalOperators - {operator})
  }

  function SetLocalOperator(s: State, sender: Address, operator: Address, approved: bool): State {
    s.(localOperators :=
      if approved then s.localOperators + {(sender, operator)} else s.localOperators - {(sender, operator)})
  }

  // ---------- Runs ----------

  /** Every call that can change the ledger, and a plain token transfer to the contract. */
  datatype Step =
    | DepositStep(env: Env, account: Address, amount: nat)
    | WithdrawStep(env: Env, sender: Address, account: Address, destination: Address, amount: nat)
    | TradeStep(env: Env, sender: Address, accounts: seq<Address>, trades: seq<TradeArg>)
    | EnableFinalSettlementStep(env: Env, priceLowerBound: nat, priceUpperBound: nat)
    | WithdrawFinalSettlementStep(caller: Address)
    | SetMinCollateralStep(minCollateral: nat)
    | SetGlobalOperatorStep(operator: Address, approved: bool)
    | SetLocalOperatorStep(sender: Address, operator: Address, approved: bool)
    | ReceiveTokensStep(amount: nat)

  function TryStep(s: State, step: Step): Option<State> {
    match step
    case DepositStep(env, account, amount) => Deposit(s, env, account, amount)
    case WithdrawStep(env, sender, account, destination, amount) =>
      Withdraw(s, env, sender, account, destination, amount)
    case TradeStep(env, sender, accounts, trades) => Trade(s, env, sender, accounts, trades)
    case EnableFinalSettlementStep(env, lower, upper) => EnableFinalSettlement(s, env, lower, upper)
    case WithdrawFinalSettlementStep(caller) => var (s', _) :- WithdrawFinalSettlement(s, caller); Some(s')
    case SetMinCollateralStep(minCollateral) => SetMinCollateral(s, minCollateral)
    case SetGlobalOperatorStep(operator, approved) => Some(SetGlobalOperator(s, operator, approved))
    case SetLocalOperatorStep(sender, operator, approved) => Some(SetLocalOperator(s, sender, operator, approved))
    case ReceiveTokensStep(amount) => Some(s.(tokenBalance := s.tokenBalance + amount))
  }

  /** A reverted call leaves the state as it was. */
  function TakeStep(s: State, step: Step): State {
    match TryStep(s, step)
    case Some(s') => s'
    case None => s
  }

  function Run(s: State, steps: seq<Step>): State
    decreases |steps|
  {
    if steps == [] then s else Run(TakeStep(s, steps[0]), steps[1..])
  }
}
