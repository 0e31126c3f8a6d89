/** P1LiquidatorProxy: liquidates up to a position limit and sends part of the profit to the insurance fund. */
module LiquidatorProxy {
  import opened Options
  import opened SignedMath
  import opened BaseMath
  import opened BalanceMath
  import opened Ledger
  import opened Collateral
  import opened MarginFlow
  import opened Perpetual
  import opened Permissions
  import opened Frames
  import Liquidation
  import TakeOver

  /** The proxy's own address, the liquidation trader's, the fund's, and the fee with 18 decimals. */
  datatype Config = Config(self: Address, liquidation: Address, insuranceFund: Address, insuranceFee: nat)

  /** The distance to the limit, which must lie in the direction of the trade. */
  function GetMaxPositionDelta(initial: Balance, isBuy: bool, maxPosition: Int): Option<Int> {
    var result := SignedSub(maxPosition, initial.GetPosition());
    if result.isPositive == isBuy && result.value > 0 then Some(result) else None
  }

  function LiquidationTrader(data: TakeOver.TradeData): TraderView -> Option<TradeResult> {
    (view: TraderView) => Liquidation.Execute(data, view)
  }

  function Accounts(liquidatee: Address, liquidator: Address): seq<Address> {
    if liquidator < liquidatee then [liquidator, liquidatee] else [liquidatee, liquidator]
  }

  function Trades(c: Config, liquidatee: Address, liquidator: Address, delta: Int): seq<TradeArg> {
    var takerIndex := if liquidator < liquidatee then 0 else 1;
    var data := TakeOver.TradeData(delta.value, delta.isPositive, false);
    [TradeArg(takerIndex, 1 - takerIndex, c.liquidation, LiquidationTrader(data))]
  }

  /** The amount taken over, and the fee on what it was worth. */
  function GetLiquidatedAndFeeAmount(c: Config, s: State, price: nat, initial: Balance, current: Balance)
    : Option<(nat, nat)>
  {
    var deltaPosition := SignedSub(current.GetPosition(), initial.GetPosition());
    var deltaMargin := SignedSub(current.GetMargin(), initial.GetMargin());
    var withPosition :- SetPosition(EMPTY_BALANCE, deltaPosition);
    var delta :- SetMargin(withPosition, deltaMargin);
    var _ :- Require(c.self in s.globalOperators);
    var (positive, negative) := GetPositiveAndNegativeValue(delta, price);
    var fee := if positive > negative then BaseMul(positive - negative, c.insuranceFee) / BASE else 0;
    Some((deltaPosition.value, fee))
  }

  function TransferFee(c: Config, s: State, env: Env, liquidator: Address, fee: nat): Option<State> {
    if fee > 0 then
      var s' :- Withdraw(s, env, c.self, liquidator, c.self, fee);
      Deposit(s', env, c.insuranceFund, fee)
    else
      Some(s)
  }

  /** The state after the trade and before the fee, with the amount taken over and the fee. */
  function LiquidateBeforeFee(
    c: Config, s: State, env: Env, sender: Address, liquidatee: Address, liquidator: Address, isBuy: bool,
    maxPosition: Int): Option<(State, nat, nat)>
  {
    var _ :- Require(liquidator == sender || s.HasAccountPermissions(liquidator, sender));
    var s1 :- Deposit(s, env, liquidator, 0);
    LiquidateSettled(c, s1, env, liquidatee, liquidator, isBuy, maxPosition)
  }

  /** The same, once the liquidator has been settled by a deposit of nothing. */
  function LiquidateSettled(
    c: Config, s1: State, env: Env, liquidatee: Address, liquidator: Address, isBuy: bool, maxPosition: Int)
    : Option<(State, nat, nat)>
  {
    var initial := s1.BalanceOf(liquidator);
    var delta :- GetMaxPositionDelta(initial, isBuy, maxPosition);
    var s2 :- Trade(s1, env, c.self, Accounts(liquidatee, liquidator), Trades(c, liquidatee, liquidator, delta));
    var (amount, fee) :- GetLiquidatedAndFeeAmount(c, s2, env.price, initial, s2.BalanceOf(liquidator));
    Some((s2, amount, fee))
  }

  function AfterLiquidate(
    c: Config, s: State, env: Env, sender: Address, liquidatee: Address, liquidator: Address, isBuy: bool,
    maxPosition: Int): Option<(State, nat)>
  {
    var (s2, amount, fee) :- LiquidateBeforeFee(c, s, env, sender, liquidatee, liquidator, isBuy, maxPosition);
    var s3 :- TransferFee(c, s2, env, liquidator, fee);
    Some((s3, amount))
  }

  class P1LiquidatorProxy {
    const self: Address
    const liquidation: Address
    const perpetual: PerpetualV1
    var insuranceFund: Address
    var insuranceFee: nat

    function Abs(): Config
      reads this
    {
      Config(self, liquidation, insuranceFund, insuranceFee)
    }

    constructor (
      self: Address, liquidation: Address, perpetual: PerpetualV1, insuranceFund: Address, insuranceFee: nat)
      ensures Abs() == Config(self, liquidation, insuranceFund, insuranceFee) && this.perpetual == perpetual
    {
      this.self, this.liquidation, this.perpetual := self, liquidation, perpetual;
      this.insuranceFund, this.insuranceFee := insuranceFund, insuranceFee;
    }

    /** All calls are one transaction: if one of them fails, the perpetual's storage is rolled back. */
    method Liquidate(
      env: Env, sender: Address, liquidatee: Address, liquidator: Address, isBuy: bool, maxPosition: Int)
      returns (ok: bool, amount: nat)
      modifies perpetual
      ensures ok == AfterLiquidate(
        Abs(), old(perpetual.Abs()), env, sender, liquidatee, liquidator, isBuy, maxPosition).Some?
      ensures ok ==> (perpetual.Abs(), amount) == AfterLiquidate(
        Abs(), old(perpetual.Abs()), env, sender, liquidatee, liquidator, isBuy, maxPosition).value
      ensures !ok ==> perpetual.Abs() == old(perpetual.Abs())
    {
      var saved := perpetual.Abs();
      var fee;
      ok, amount, fee := DoLiquidation(env, sender, liquidatee, liquidator, isBuy, maxPosition);
      if ok && fee > 0 {
        ok := perpetual.Withdraw(env, self, liquidator, self, fee);
        if ok {
          ok := perpetual.Deposit(env, insuranceFund, fee);
        }
      }
      if !ok {
        perpetual.Rollback(saved);
      }
    }

    method DoLiquidation(
      env: Env, sender: Address, liquidatee: Address, liquidator: Address, isBuy: bool, maxPosition: Int)
      returns (ok: bool, amount: nat, fee: nat)
      modifies perpetual
      ensures ok == LiquidateBeforeFee(
        Abs(), old(perpetual.Abs()), env, sender, liquidatee, liquidator, isBuy, maxPosition).Some?
      ensures ok ==> (perpetual.Abs(), amount, fee) == LiquidateBeforeFee(
        Abs(), old(perpetual.Abs()), env, sender, liquidatee, liquidator, isBuy, maxPosition).value
    {
      amount, fee := 0, 0;
      if liquidator != sender && !perpetual.Abs().HasAccountPermissions(liquidator, sender) {
        return false, 0, 0;
      }
      ok := perpetual.Deposit(env, liquidator, 0);
      if !ok {
        return;
      }
      var initial := perpetual.Abs().BalanceOf(liquidator);
      var delta := GetMaxPositionDelta(initial, isBuy, maxPosition);
      if delta.None? {
        return false, 0, 0;
      }
      ok := perpetual.Trade(
        env, self, Accounts(liquidatee, liquidator), Trades(Abs(), liquidatee, liquidator, delta.value));
      if !ok {
        return;
      }
      var current := perpetual.Abs().BalanceOf(liquidator);
      var amounts := GetLiquidatedAndFeeAmount(Abs(), perpetual.Abs(), env.price, initial, current);
      if amounts.None? {
        return false, 0, 0;
      }
      return true, amounts.value.0, amounts.value.1;
    }

    method SetInsuranceFund(insuranceFund: Address)
      modifies this
      ensures Abs() == old(Abs()).(insuranceFund := insuranceFund)
    {
      this.insuranceFund := insuranceFund;
    }

    method SetInsuranceFee(insuranceFee: nat) returns (ok: bool)
      modifies this
      ensures ok <==> 2 * insuranceFee <= BASE
      ensures Abs() == if ok then old(Abs()).(insuranceFee := insuranceFee) else old(Abs())
    {
      ok := insuranceFee <= BASE / 2;
      if ok {
        this.insuranceFee := insuranceFee;
      }
    }
  }

  // ---------- Guarantees ----------

  /** The request is refused exactly if the limit is not ahead of the position in the direction of the trade. */
  lemma DeltaIsDistance(initial: Balance, isBuy: bool, maxPosition: Int)
    ensures var delta := GetMaxPositionDelta(initial, isBuy, maxPosition);
      var distance := maxPosition.ToInt() - initial.Position();
      && (delta.Some? <==> if isBuy then distance > 0 else distance < 0)
      && (delta.Some? ==> delta.value == Int(Magnitude(distance), isBuy))
  {
  }

  /** What the single liquidation in the batch does to both parties. */
  lemma LiquidationMoves(
    c: Config, s: State, env: Env, liquidatee: Address, liquidator: Address, delta: Int) returns (r: TradeResult)
    requires InBlock(s, env, liquidator)
    requires Trade(s, env, c.self, Accounts(liquidatee, liquidator), Trades(c, liquidatee, liquidator, delta)).Some?
    ensures liquidator != liquidatee && SettleAccount(s, s.globalIndex, liquidatee).Some?
    ensures var settled := SettleAccount(s, s.globalIndex, liquidatee).value;
      var s2 := Trade(s, env, c.self, Accounts(liquidatee, liquidator), Trades(c, liquidatee, liquidator, delta)).value;
      var data := TakeOver.TradeData(delta.value, delta.isPositive, false);
      var view := TraderView(settled, env.now, c.self, liquidatee, liquidator, env.price, {});
      && Liquidation.Execute(data, view) == Some(r)
      && r.isBuy == delta.isPositive && r.positionAmount <= delta.value
      && ApplyResult(settled, liquidatee, liquidator, r) == Some(s2)
      && settled.BalanceOf(liquidator) == s.BalanceOf(liquidator)
  {
    var accounts, trades := Accounts(liquidatee, liquidator), Trades(c, liquidatee, liquidator, delta);
    SettlingTwiceIsNoOp(s, env, liquidator);
    var (settled, traded, _) := ExecuteBatch(s, env, c.self, accounts, trades).value;
    assert accounts[0] < accounts[1];
    SettleBoth(s, liquidatee, liquidator);
    var data := TakeOver.TradeData(delta.value, delta.isPositive, false);
    var view := TraderView(settled, env.now, c.self, liquidatee, liquidator, env.price, {});
    assert RunTrades(settled, env, c.self, accounts, trades, {})
        == (match RunTrade(settled, env, c.self, accounts, trades[0], {}) case Some(x) => Some(x.0) case None => None);
    assert trades[0].execute(view) == Liquidation.Execute(data, view);
    r := Liquidation.Execute(data, view).value;
  }

  /** The one liquidation of the batch, on the settled ledger. */
  ghost function Liquidated(
    c: Config, settled: State, env: Env, liquidatee: Address, liquidator: Address, delta: Int): Option<State>
  {
    var data := TakeOver.TradeData(delta.value, delta.isPositive, false);
    var view := TraderView(settled, env.now, c.self, liquidatee, liquidator, env.price, {});
    var r :- Liquidation.Execute(data, view);
    ApplyResult(settled, liquidatee, liquidator, r)
  }

  /** Both parties end safely. */
  ghost predicate BothSafe(settled: State, s2: State, env: Env, liquidatee: Address, liquidator: Address) {
    && SafeOutcome(settled.BalanceOf(liquidatee), s2.BalanceOf(liquidatee), env.price, settled.minCollateral)
    && SafeOutcome(settled.BalanceOf(liquidator), s2.BalanceOf(liquidator), env.price, settled.minCollateral)
  }

  /**
   Exactly when the batch is accepted: two different parties, a liquidatee that can be settled, an approved
   liquidation contract, which liquidates it, and both end safely.
   */
  lemma BatchIsAcceptedExactly(
    c: Config, s: State, env: Env, liquidatee: Address, liquidator: Address, delta: Int)
    requires InBlock(s, env, liquidator)
    ensures Trade(s, env, c.self, Accounts(liquidatee, liquidator), Trades(c, liquidatee, liquidator, delta)).Some?
      <==>
      && liquidator != liquidatee && !s.finalSettlementEnabled && c.liquidation in s.globalOperators
      && SettleAccount(s, s.globalIndex, liquidatee).Some?
      && var settled := SettleAccount(s, s.globalIndex, liquidatee).value;
         var s2 := Liquidated(c, settled, env, liquidatee, liquidator, delta);
         s2.Some? && BothSafe(settled, s2.value, env, liquidatee, liquidator)
  {
    var accounts, trades := Accounts(liquidatee, liquidator), Trades(c, liquidatee, liquidator, delta);
    ExecutionOfTwo(c, s, env, liquidatee, liquidator, delta);
    if ExecuteBatch(s, env, c.self, accounts, trades).Some? {
      BatchAcceptedExactly(s, env, c.self, accounts, trades);
      assert (accounts[0], accounts[1]) == (liquidatee, liquidator)
        || (accounts[0], accounts[1]) == (liquidator, liquidatee);
    }
  }

  lemma ExecutionOfTwo(
    c: Config, s: State, env: Env, liquidatee: Address, liquidator: Address, delta: Int)
    requires InBlock(s, env, liquidator)
    ensures var batch := ExecuteBatch(
        s, env, c.self, Accounts(liquidatee, liquidator), Trades(c, liquidatee, liquidator, delta));
      && (batch.Some? <==>
           && liquidator != liquidatee && !s.finalSettlementEnabled && c.liquidation in s.globalOperators
           && SettleAccount(s, s.globalIndex, liquidatee).Some?
           && Liquidated(
                c, SettleAccount(s, s.globalIndex, liquidatee).value, env, liquidatee, liquidator, delta).Some?)
      && (batch.Some? ==>
           && batch.value.0 == SettleAccount(s, s.globalIndex, liquidatee).value
           && Some(batch.value.1) == Liquidated(c, batch.value.0, env, liquidatee, liquidator, delta))
  {
    var accounts := Accounts(liquidatee, liquidator);
    SettlingTwiceIsNoOp(s, env, liquidator);
    assert accounts[0] < accounts[1] <==> liquidator != liquidatee;
    if liquidator != liquidatee {
      SettleBoth(s, liquidatee, liquidator);
      if SettleAccount(s, s.globalIndex, liquidatee).Some? {
        OneLiquidation(
          c, SettleAccount(s, s.globalIndex, liquidatee).value, env, liquidatee, liquidator, delta);
      }
    }
  }

  lemma OneLiquidation(
    c: Config, settled: State, env: Env, liquidatee: Address, liquidator: Address, delta: Int)
    requires liquidator != liquidatee
    ensures var accounts, trades := Accounts(liquidatee, liquidator), Trades(c, liquidatee, liquidator, delta);
      RunTrades(settled, env, c.self, accounts, trades, {})
        == if c.liquidation in settled.globalOperators then
             Liquidated(c, settled, env, liquidatee, liquidator, delta)
           else None
  {
    var accounts, trades := Accounts(liquidatee, liquidator), Trades(c, liquidatee, liquidator, delta);
    var data := TakeOver.TradeData(delta.value, delta.isPositive, false);
    var view := TraderView(settled, env.now, c.self, liquidatee, liquidator, env.price, {});
    assert trades[0].execute(view) == Liquidation.Execute(data, view);
    assert RunTrades(settled, env, c.self, accounts, trades, {})
        == (match RunTrade(settled, env, c.self, accounts, trades[0], {}) case Some(x) => Some(x.0) case None => None);
  }

  lemma SettleBoth(s: State, liquidatee: Address, liquidator: Address)
    requires liquidator != liquidatee
    requires s.IndexOf(liquidator).timestamp == s.globalIndex.timestamp
    ensures SettleAccounts(s, s.globalIndex, Accounts(liquidatee, liquidator))
         == SettleAccount(s, s.globalIndex, liquidatee)
    ensures SettleAccount(s, s.globalIndex, liquidatee).Some? ==>
      var settled := SettleAccount(s, s.globalIndex, liquidatee).value;
      SettleAccount(settled, s.globalIndex, liquidator) == Some(settled) &&
      settled.BalanceOf(liquidator) == s.BalanceOf(liquidator) &&
      settled.IndexOf(liquidator) == s.IndexOf(liquidator)
  {
    var accounts := Accounts(liquidatee, liquidator);
    var newIndex := s.globalIndex;
    assert accounts[1..] == [accounts[1]] && accounts[1..][1..] == [];
    if SettleAccount(s, newIndex, liquidatee).Some? {
      var settled := SettleAccount(s, newIndex, liquidatee).value;
      SettleAccountFrame(s, newIndex, liquidatee, liquidator);
      assert SettleAccounts(settled, newIndex, []) == Some(settled);
    }
  }

  /** The fee is the floor of profit * fee / BASE^2, with the profit in units of 1/BASE token. */
  lemma FeeIsShareOfProfit(c: Config, s: State, price: nat, initial: Balance, current: Balance)
    requires GetLiquidatedAndFeeAmount(c, s, price, initial, current).Some?
    ensures var (amount, fee) := GetLiquidatedAndFeeAmount(c, s, price, initial, current).value;
      && amount == Magnitude(current.Position() - initial.Position())
      && FeeOnProfit(c, price, initial, current, fee)
  {
  }

  function Magnitude(x: int): nat {
    if x < 0 then -x else x
  }

  /** The position moved towards the limit and not past it. */
  ghost predicate TowardsLimit(initial: Balance, current: Balance, isBuy: bool, maxPosition: Int) {
    if isBuy then initial.Position() <= current.Position() <= maxPosition.ToInt()
    else maxPosition.ToInt() <= current.Position() <= initial.Position()
  }

  ghost predicate FeeOnProfit(c: Config, price: nat, initial: Balance, current: Balance, fee: nat) {
    var profit := BASE * (current.Margin() - initial.Margin()) + price * (current.Position() - initial.Position());
    fee == if profit > 0 then (profit * c.insuranceFee) / (BASE * BASE) else 0
  }

  /**
   A successful call: the liquidator ends between its initial position and the limit; its balance changes
   by exactly what the liquidation contract answers for the settled liquidatee, since settling twice in a
   block changes nothing; and the fee is the stated share of the profit.
   */
  lemma LiquidatorStaysWithinLimit(
    c: Config, s: State, env: Env, sender: Address, liquidatee: Address, liquidator: Address, isBuy: bool,
    maxPosition: Int) returns (r: TradeResult)
    requires LiquidateBeforeFee(c, s, env, sender, liquidatee, liquidator, isBuy, maxPosition).Some?
    ensures Deposit(s, env, liquidator, 0).Some?
    ensures var s1 := Deposit(s, env, liquidator, 0).value;
      var (s2, amount, fee) := LiquidateBeforeFee(c, s, env, sender, liquidatee, liquidator, isBuy, maxPosition).value;
      var initial, current := s1.BalanceOf(liquidator), s2.BalanceOf(liquidator);
      && TowardsLimit(initial, current, isBuy, maxPosition)
      && r.isBuy == isBuy && Moved(initial, current, r, !r.isBuy) && amount == r.positionAmount
      && LiquidatesWith(c, s1, env, liquidatee, liquidator, r)
      && FeeOnProfit(c, env.price, initial, current, fee)
  {
    DepositSettles(s, env, liquidator, 0);
    var s1 := Deposit(s, env, liquidator, 0).value;
    assert LiquidateSettled(c, s1, env, liquidatee, liquidator, isBuy, maxPosition)
        == LiquidateBeforeFee(c, s, env, sender, liquidatee, liquidator, isBuy, maxPosition);
    r := SettledStaysWithinLimit(c, s1, env, liquidatee, liquidator, isBuy, maxPosition);
  }

  lemma SettledStaysWithinLimit(
    c: Config, s1: State, env: Env, liquidatee: Address, liquidator: Address, isBuy: bool, maxPosition: Int)
    returns (r: TradeResult)
    requires InBlock(s1, env, liquidator)
    requires LiquidateSettled(c, s1, env, liquidatee, liquidator, isBuy, maxPosition).Some?
    ensures var (s2, amount, fee) := LiquidateSettled(c, s1, env, liquidatee, liquidator, isBuy, maxPosition).value;
      var initial, current := s1.BalanceOf(liquidator), s2.BalanceOf(liquidator);
      && TowardsLimit(initial, current, isBuy, maxPosition)
      && r.isBuy == isBuy && Moved(initial, current, r, !r.isBuy) && amount == r.positionAmount
      && LiquidatesWith(c, s1, env, liquidatee, liquidator, r)
      && FeeOnProfit(c, env.price, initial, current, fee)
  {
    var initial := s1.BalanceOf(liquidator);
    var delta := GetMaxPositionDelta(initial, isBuy, maxPosition).value;
    var (s2, _, _) := LiquidateSettled(c, s1, env, liquidatee, liquidator, isBuy, maxPosition).value;
    r := LiquidationMoves(c, s1, env, liquidatee, liquidator, delta);
    var settled := SettleAccount(s1, s1.globalIndex, liquidatee).value;
    ApplyResultMoves(settled, liquidatee, liquidator, r);
    FeeIsShareOfProfit(c, s2, env.price, initial, s2.BalanceOf(liquidator));
  }

  /** The result is what the liquidation contract answers for the liquidatee's settled balance. */
  ghost predicate LiquidatesWith(
    c: Config, s: State, env: Env, liquidatee: Address, liquidator: Address, r: TradeResult)
  {
    && SettleAccount(s, s.globalIndex, liquidatee).Some?
    && var settled := SettleAccount(s, s.globalIndex, liquidatee).value;
       var view := TraderView(settled, env.now, c.self, liquidatee, liquidator, env.price, {});
       exists data :: Liquidation.Execute(data, view) == Some(r)
  }

  /**
   The fee leaves the liquidator's margin and arrives in the fund's, which is settled on the way. The
   contract's tokens are the same in the end, and nobody else's balance changes.
   */
  lemma FeeIsConserved(c: Config, s: State, env: Env, liquidator: Address, fee: nat)
    requires TransferFee(c, s, env, liquidator, fee).Some?
    requires InBlock(s, env, liquidator)
    requires c.self != s.self
    ensures FeeMoved(c, s, TransferFee(c, s, env, liquidator, fee).value, liquidator, fee)
  {
    if fee > 0 {
      var s1 := Withdraw(s, env, c.self, liquidator, c.self, fee).value;
      WithdrawInBlock(s, env, c.self, liquidator, c.self, fee);
      FeeArrives(s1, env, c.insuranceFund, fee);
    }
  }

  lemma FeeArrives(s: State, env: Env, fund: Address, fee: nat)
    requires s.globalIndex.timestamp == env.now
    requires Deposit(s, env, fund, fee).Some?
    ensures SettleAccount(s, s.globalIndex, fund).Some?
    ensures var s' := Deposit(s, env, fund, fee).value;
      var settled := SettleAccount(s, s.globalIndex, fund).value;
      && s'.tokenBalance == s.tokenBalance + fee
      && s'.BalanceOf(fund).Margin() == settled.BalanceOf(fund).Margin() + fee
      && s'.BalanceOf(fund).Position() == settled.BalanceOf(fund).Position()
      && (s.IndexOf(fund).timestamp == env.now ==> settled == s)
      && forall a: Address :: a != fund ==> s'.BalanceOf(a) == s.BalanceOf(a)
  {
    DepositSettles(s, env, fund, fee);
    EmptyDepositSettles(s, env, fund);
  }

  ghost predicate FeeMoved(c: Config, s: State, s': State, liquidator: Address, fee: nat) {
    var fund := c.insuranceFund;
    && s'.tokenBalance == s.tokenBalance
    && (fee == 0 ==> s' == s)
    && s'.BalanceOf(liquidator).Position() == s.BalanceOf(liquidator).Position()
    && s'.BalanceOf(liquidator).Margin() == s.BalanceOf(liquidator).Margin() - (if fund == liquidator then 0 else fee)
    && (fee > 0 && fund != liquidator ==>
         && SettleAccount(s, s.globalIndex, fund).Some?
         && s'.BalanceOf(fund).Margin() == SettleAccount(s, s.globalIndex, fund).value.BalanceOf(fund).Margin() + fee)
    && forall a: Address :: a != liquidator && a != fund ==> s'.BalanceOf(a) == s.BalanceOf(a)
  }

  /** The whole call: the trade, then the fee, with the contract's tokens as they were before. */
  lemma WholeCallConserves(
    c: Config, s: State, env: Env, sender: Address, liquidatee: Address, liquidator: Address, isBuy: bool,
    maxPosition: Int)
    requires AfterLiquidate(c, s, env, sender, liquidatee, liquidator, isBuy, maxPosition).Some?
    requires c.self != s.self
    ensures LiquidateBeforeFee(c, s, env, sender, liquidatee, liquidator, isBuy, maxPosition).Some?
    ensures var (s', _) := AfterLiquidate(c, s, env, sender, liquidatee, liquidator, isBuy, maxPosition).value;
      var (s2, _, fee) := LiquidateBeforeFee(c, s, env, sender, liquidatee, liquidator, isBuy, maxPosition).value;
      FeeMoved(c, s2, s', liquidator, fee) && s'.tokenBalance == s.tokenBalance
  {
    DepositSettles(s, env, liquidator, 0);
    var s1 := Deposit(s, env, liquidator, 0).value;
    var (s2, _, fee) := LiquidateBeforeFee(c, s, env, sender, liquidatee, liquidator, isBuy, maxPosition).value;
    var delta := GetMaxPositionDelta(s1.BalanceOf(liquidator), isBuy, maxPosition).value;
    TradeStaysInThisBlock(c, s1, env, liquidatee, liquidator, delta, s2);
    FeeIsConserved(c, s2, env, liquidator, fee);
  }

  lemma TradeStaysInThisBlock(
    c: Config, s: State, env: Env, liquidatee: Address, liquidator: Address, delta: Int, s2: State)
    requires InBlock(s, env, liquidator)
    requires Some(s2)
      == Trade(s, env, c.self, Accounts(liquidatee, liquidator), Trades(c, liquidatee, liquidator, delta))
    ensures InBlock(s2, env, liquidator)
    ensures s2.tokenBalance == s.tokenBalance && s2.self == s.self
  {
    var r := LiquidationMoves(c, s, env, liquidatee, liquidator, delta);
    SettleBoth(s, liquidatee, liquidator);
    var settled := SettleAccount(s, s.globalIndex, liquidatee).value;
    assert s2.IndexOf(liquidator) == settled.IndexOf(liquidator);
  }

  /**
   After any run of the ledger, the proxy only acts for a liquidator who calls it, or for whom the caller has an
   earlier permission; and the proxy itself is one of the approved operators.
   */
  lemma LiquidationsArePermitted(
    c: Config, self: Address, now: nat, minCollateral: nat, steps: seq<Step>, env: Env, sender: Address,
    liquidatee: Address, liquidator: Address, isBuy: bool, maxPosition: Int)
    requires AfterLiquidate(
      c, Run(Initial(self, now, minCollateral), steps), env, sender, liquidatee, liquidator, isBuy, maxPosition).Some?
    ensures IsPermitted(steps, liquidator, sender)
    ensures exists i: nat :: ApprovedForAll(steps, i, c.self)
  {
    var s := Run(Initial(self, now, minCollateral), steps);
    PermittedExactly(self, now, minCollateral, steps, liquidator, sender);
    GlobalOperatorsAreApproved(Initial(self, now, minCollateral), steps, c.self);
    var s1 := Deposit(s, env, liquidator, 0).value;
    var delta := GetMaxPositionDelta(s1.BalanceOf(liquidator), isBuy, maxPosition).value;
    DepositKeepsOperators(s, env, liquidator, 0);
    TradeFrame(s1, env, c.self, Accounts(liquidatee, liquidator), Trades(c, liquidatee, liquidator, delta));
  }

  /**
   Exactly when the proxy liquidates: the caller may act for the liquidator, who can be settled and is not yet at
   the limit; the batch is accepted; the proxy may read the price; and the changes fit the widths of a balance.
   */
  lemma LiquidateIsAcceptedExactly(
    c: Config, s: State, env: Env, sender: Address, liquidatee: Address, liquidator: Address, isBuy: bool,
    maxPosition: Int)
    ensures LiquidateBeforeFee(c, s, env, sender, liquidatee, liquidator, isBuy, maxPosition).Some? <==>
      && MayActFor(s, liquidator, sender) && Deposit(s, env, liquidator, 0).Some?
      && c.self in s.globalOperators
      && var s1 := Deposit(s, env, liquidator, 0).value;
         var initial := s1.BalanceOf(liquidator);
         var distance := maxPosition.ToInt() - initial.Position();
         && (if isBuy then distance > 0 else distance < 0)
         && var batch := Trade(
              s1, env, c.self, Accounts(liquidatee, liquidator),
              Trades(c, liquidatee, liquidator, Int(Magnitude(distance), isBuy)));
            && batch.Some?
            && Magnitude(batch.value.BalanceOf(liquidator).Position() - initial.Position()) < UINT120
            && Magnitude(batch.value.BalanceOf(liquidator).Margin() - initial.Margin()) < UINT120
  {
    if Deposit(s, env, liquidator, 0).Some? {
      var s1 := Deposit(s, env, liquidator, 0).value;
      DeltaIsDistance(s1.BalanceOf(liquidator), isBuy, maxPosition);
      DepositKeepsOperators(s, env, liquidator, 0);
      SettledIsAcceptedExactly(c, s1, env, liquidatee, liquidator, isBuy, maxPosition);
    }
  }

  /** After that, only a fee that cannot be moved undoes the call. */
  lemma CallIsAcceptedExactly(
    c: Config, s: State, env: Env, sender: Address, liquidatee: Address, liquidator: Address, isBuy: bool,
    maxPosition: Int)
    ensures AfterLiquidate(c, s, env, sender, liquidatee, liquidator, isBuy, maxPosition).Some? <==>
      && LiquidateBeforeFee(c, s, env, sender, liquidatee, liquidator, isBuy, maxPosition).Some?
      && var (s2, _, fee) := LiquidateBeforeFee(c, s, env, sender, liquidatee, liquidator, isBuy, maxPosition).value;
         fee == 0 ||
         var withdrawn := Withdraw(s2, env, c.self, liquidator, c.self, fee);
         withdrawn.Some? && Deposit(withdrawn.value, env, c.insuranceFund, fee).Some?
  {
  }

  lemma SettledIsAcceptedExactly(
    c: Config, s1: State, env: Env, liquidatee: Address, liquidator: Address, isBuy: bool, maxPosition: Int)
    ensures LiquidateSettled(c, s1, env, liquidatee, liquidator, isBuy, maxPosition).Some? <==>
      var initial := s1.BalanceOf(liquidator);
      var delta := GetMaxPositionDelta(initial, isBuy, maxPosition);
      && delta.Some? && c.self in s1.globalOperators
      && var batch := Trade(
           s1, env, c.self, Accounts(liquidatee, liquidator), Trades(c, liquidatee, liquidator, delta.value));
         && batch.Some?
         && Magnitude(batch.value.BalanceOf(liquidator).Position() - initial.Position()) < UINT120
         && Magnitude(batch.value.BalanceOf(liquidator).Margin() - initial.Margin()) < UINT120
  {
    var delta := GetMaxPositionDelta(s1.BalanceOf(liquidator), isBuy, maxPosition);
    if delta.Some? {
      var accounts, trades :=
        Accounts(liquidatee, liquidator), Trades(c, liquidatee, liquidator, delta.value);
      var batch := Trade(s1, env, c.self, accounts, trades);
      if batch.Some? {
        TradeFrame(s1, env, c.self, accounts, trades);
        FeeIsComputedExactly(
          c, batch.value, env.price, s1.BalanceOf(liquidator), batch.value.BalanceOf(liquidator));
      }
    }
  }

  lemma FeeIsComputedExactly(c: Config, s: State, price: nat, initial: Balance, current: Balance)
    ensures GetLiquidatedAndFeeAmount(c, s, price, initial, current).Some? <==>
      && c.self in s.globalOperators
      && Magnitude(current.Position() - initial.Position()) < UINT120
      && Magnitude(current.Margin() - initial.Margin()) < UINT120
  {
  }
}
