/**
 What becomes of the matched trades on the chain: when the contract takes their fills for valid, and what
 they do to the operator, who is the taker of all of them.
 */
module MatchSettlement {
  import opened Options
  import opened BaseMath
  import opened BalanceMath
  import opened Ledger
  import opened BatchDiscipline
  import opened CallData
  import opened Matcher
  import opened Permissions
  import Orders
  import T = TradeOperation

  // ---------- Limits ----------

  /** The fee meets the limit, as the contract sees both of them. */
  predicate FeeWithin(fee: real, limit: real) {
    Rounded(fee) <= Rounded(limit) && (limit < 0.0 ==> fee < 0.0)
  }

  /** The encoding takes the magnitude of a price, so this follows from crossing only if no price is negative. */
  predicate PriceWithin(taker: T.SignedOrder, maker: T.SignedOrder) {
    if taker.isBuy then ToSolidity(maker.limitPrice) <= ToSolidity(taker.limitPrice)
    else ToSolidity(maker.limitPrice) >= ToSolidity(taker.limitPrice)
  }

  /**
   The matcher compares prices and not fees. Both orders of a match are filled at the maker's price and fee:
   the maker's fill is valid, and the taker's, at prices that are not negative, is exactly if the maker's
   limit fee meets the taker's.
   */
  lemma MatchIsValidExactly(taker: T.SignedOrder, maker: T.SignedOrder, amount: nat)
    requires HasAddresses(taker) && HasAddresses(maker)
    requires maker.isBuy != taker.isBuy && PricesMeet(taker, maker)
    ensures var fill := EncodeFill(amount, maker.limitPrice, maker.limitFee);
      && Orders.ValidFill(EncodeOrder(maker), fill)
      && (Orders.ValidFill(EncodeOrder(taker), fill)
          <==> PriceWithin(taker, maker) && FeeWithin(maker.limitFee, taker.limitFee))
    ensures taker.limitPrice >= 0.0 && maker.limitPrice >= 0.0 ==> PriceWithin(taker, maker)
    ensures maker.limitFee <= taker.limitFee ==> FeeWithin(maker.limitFee, taker.limitFee)
  {
    var (lower, higher) := if taker.isBuy then (maker, taker) else (taker, maker);
    RoundedMonotone(lower.limitPrice, higher.limitPrice);
    if maker.limitFee <= taker.limitFee {
      RoundedMonotone(maker.limitFee, taker.limitFee);
    }
  }

  /**
   Exactly when the contract accepts a fill that the client has built, with its maker and this taker as parties,
   in the client's terms.
   */
  lemma ClientFillIsAcceptedExactly(
    chain: Orders.State, order: T.SignedOrder, amount: nat, price: real, fee: real, view: TraderView)
    requires HasAddresses(order) && view.maker == T.ParseAddress(order.maker)
    ensures var data := EncodeTradeData(T.FillPayload(order, amount, price, fee));
      Orders.FillOrder(Orders.Linear, chain, data, view).Some? <==>
        && MayActFor(view.state, view.taker, view.sender)
        && (chain.StatusOf(data.order).Approved? || (chain.StatusOf(data.order).Open? && order.signer == view.maker))
        && (T.ParseAddress(order.taker) == 0 || T.ParseAddress(order.taker) == view.taker)
        && (order.expiration == 0 || view.now <= order.expiration)
        && (order.isBuy ==> ToSolidity(price) <= ToSolidity(order.limitPrice))
        && (!order.isBuy ==> ToSolidity(price) >= ToSolidity(order.limitPrice))
        && FeeWithin(fee, order.limitFee)
        && IsClientOrderReady(order, amount, view)
        && chain.FilledAmount(data.order) + amount <= order.amount
        && Orders.MarginAmount(Orders.Linear, data.order, data.fill).Some?
  {
    Orders.FillIsAcceptedExactly(
      Orders.Linear, chain, EncodeTradeData(T.FillPayload(order, amount, price, fee)), view);
  }

  /** The trigger is reached, and an order that may only decrease the position does. */
  ghost predicate IsClientOrderReady(order: T.SignedOrder, amount: nat, view: TraderView) {
    var trigger, position := ToSolidity(order.triggerPrice), view.state.BalanceOf(view.maker);
    && (trigger == 0 || if order.isBuy then trigger <= view.price else trigger >= view.price)
    && (order.isDecreaseOnly ==> order.isBuy != position.positionIsPositive && amount <= position.position)
  }

  lemma InvalidFillIsRefused(orders: Orders.State, data: Orders.TradeData, view: TraderView)
    requires !Orders.ValidFill(data.order, data.fill)
    ensures Orders.FillOrder(Orders.Linear, orders, data, view) == None
  {
  }

  /** A crossing match that the contract refuses: the seller's fee is one percent, and the buyer accepts none. */
  lemma FeeOfMatchIsRefused(orders: Orders.State, signer: Address, view: TraderView)
    ensures var taker := T.SignedOrder(ADDRESS, ADDRESS, true, false, 1, 1.0, 0.0, 0.0, 0, 0, signer);
      var maker := taker.(isBuy := false, limitFee := 0.01);
      && HasAddresses(taker) && HasAddresses(maker) && PricesMeet(taker, maker)
      && var data := EncodeTradeData(T.FillPayload(taker, 1, maker.limitPrice, maker.limitFee));
         Orders.FillOrder(Orders.Linear, orders, data, view) == None
  {
    var taker := T.SignedOrder(ADDRESS, ADDRESS, true, false, 1, 1.0, 0.0, 0.0, 0, 0, signer);
    var maker := taker.(isBuy := false, limitFee := 0.01);
    AddressIsText();
    assert Rounded(0.01) == BASE / 100 && Rounded(0.0) == 0;
    assert !FeeWithin(0.01, 0.0);
    MatchIsValidExactly(taker, maker, 1);
    InvalidFillIsRefused(orders, EncodeTradeData(T.FillPayload(taker, 1, maker.limitPrice, maker.limitFee)), view);
  }

  // ---------- One match ----------

  /** The buyer pays the operator at least what the operator pays the seller. */
  predicate NoLoss(buy: Orders.Order, sell: Orders.Order, fill: Orders.Fill) {
    var paid, received :=
      Orders.MarginAmount(Orders.Linear, buy, fill), Orders.MarginAmount(Orders.Linear, sell, fill);
    paid.Some? && received.Some? ==> paid.value >= received.value
  }

  /** The fee is not a rebate, or one that is rounded to nothing. */
  predicate TakesNoRebate(fill: Orders.Fill) {
    !fill.isNegativeFee || BaseMul(fill.fee, fill.price) == 0
  }

  lemma BuyerCoversSeller(buy: Orders.Order, sell: Orders.Order, fill: Orders.Fill)
    requires buy.isBuy && !sell.isBuy && TakesNoRebate(fill)
    ensures NoLoss(buy, sell, fill)
  {
  }

  /**
   If both prices with fee can be computed, a match loses the operator nothing, whatever its amount, exactly
   if there is no rebate in it. With a rebate, one unit of position is enough for a loss.
   */
  lemma NoLossExactly(buy: Orders.Order, sell: Orders.Order, fill: Orders.Fill)
    requires buy.isBuy && !sell.isBuy
    requires Orders.MarginPerPosition(buy, fill).Some? && Orders.MarginPerPosition(sell, fill).Some?
    ensures (forall amount: nat :: NoLoss(buy, sell, fill.(amount := amount))) <==> TakesNoRebate(fill)
  {
    if TakesNoRebate(fill) {
      forall amount: nat ensures NoLoss(buy, sell, fill.(amount := amount)) {
        assert TakesNoRebate(fill.(amount := amount));
        BuyerCoversSeller(buy, sell, fill.(amount := amount));
      }
    } else {
      var unit := fill.(amount := BASE);
      var paid, received :=
        Orders.MarginPerPosition(buy, unit).value, Orders.MarginPerPosition(sell, unit).value;
      assert BaseMul(BASE, paid) == paid && BaseMul(BASE, received) == received;
      assert !NoLoss(buy, sell, unit);
    }
  }

  // ---------- The operator ----------

  /** The order is somebody else's. */
  ghost predicate IsForeign(operator: string, order: T.SignedOrder) {
    T.IsAddressText(operator) && HasAddresses(order) && T.ParseAddress(order.maker) != T.ParseAddress(operator)
  }

  ghost predicate AllForeign(operator: string, taker: T.SignedOrder, orders: seq<ApiOrder>) {
    && IsForeign(operator, taker)
    && forall i :: 0 <= i < |orders| ==> IsForeign(operator, orders[i].order)
  }

  /** A fill of somebody else's order with the operator as taker. */
  ghost predicate IsOperatorFill(ordersAddress: string, operator: string, trade: T.TempTradeArg) {
    && trade.data.FillPayload? && IsForeign(operator, trade.data.order)
    && trade.maker == T.ToLowerCase(trade.data.order.maker)
    && trade.taker == T.ToLowerCase(operator)
    && trade.trader == ordersAddress && T.IsAddressText(ordersAddress)
  }

  ghost predicate AllOperatorFills(ordersAddress: string, operator: string, trades: seq<T.TempTradeArg>) {
    forall i :: 0 <= i < |trades| ==> IsOperatorFill(ordersAddress, operator, trades[i])
  }

  /** What a trade adds to a party's margin and position. */
  datatype Gain = Gain(margin: int, position: int)

  /** What the taker gets from a fill, if the margin can be computed. It sells to a buyer, and buys from a seller. */
  function TakerGain(data: T.Payload): Option<Gain> {
    if data.FillPayload? && HasAddresses(data.order) then
      var m :- Orders.MarginAmount(
        Orders.Linear, EncodeOrder(data.order), EncodeFill(data.amount, data.price, data.fee));
      Some(if data.order.isBuy then Gain(m, 0 - data.amount) else Gain(0 - m, data.amount))
    else
      None
  }

  function TakerGains(trades: seq<T.TempTradeArg>): seq<Option<Gain>> {
    GainsOf(TakerGain, trades)
  }

  function GainsOf(gain: T.Payload -> Option<Gain>, trades: seq<T.TempTradeArg>): seq<Option<Gain>> {
    seq(|trades|, i requires 0 <= i < |trades| => gain(trades[i].data))
  }

  predicate AllComputed(gains: seq<Option<Gain>>) {
    forall i :: 0 <= i < |gains| ==> gains[i].Some?
  }

  function TotalGain(gains: seq<Option<Gain>>): Gain
    requires AllComputed(gains)
    decreases |gains|
  {
    if gains == [] then
      Gain(0, 0)
    else
      var rest := TotalGain(gains[1..]);
      Gain(gains[0].value.margin + rest.margin, gains[0].value.position + rest.position)
  }

  /** The argument carries the fill, and points to the parsed addresses of its parties. */
  ghost predicate PointsTo(accounts: seq<Address>, operator: Address, arg: T.TradeArg, trade: T.TempTradeArg) {
    && arg.data == trade.data && arg.data.FillPayload? && HasAddresses(arg.data.order)
    && T.IsAddressText(arg.trader)
    && arg.makerIndex < |accounts| && arg.takerIndex < |accounts|
    && accounts[arg.makerIndex] == T.ParseAddress(arg.data.order.maker) != operator
    && accounts[arg.takerIndex] == operator
  }

  ghost predicate AllPointTo(
    accounts: seq<Address>, operator: Address, args: seq<T.TradeArg>, trades: seq<T.TempTradeArg>)
  {
    |args| == |trades| && forall i :: 0 <= i < |args| ==> PointsTo(accounts, operator, args[i], trades[i])
  }

  /** What commit builds from such fills is a list the contract accepts, with indices to the right addresses. */
  lemma CommittedArgsPointTo(
    ordersAddress: string, operator: string, trades: seq<T.TempTradeArg>, accounts: seq<string>,
    args: seq<T.TradeArg>)
    requires trades != [] && AllOperatorFills(ordersAddress, operator, trades)
    requires T.Builds(trades, accounts, args)
    ensures forall i :: 0 <= i < |accounts| ==> T.IsAddressText(accounts[i])
    ensures VerifyAccounts(T.ParseAll(accounts))
    ensures T.IsAddressText(operator) && AllPointTo(T.ParseAll(accounts), T.ParseAddress(operator), args, trades)
  {
    assert IsOperatorFill(ordersAddress, operator, trades[0]);
    T.LowerCaseSameAddress(operator);
    forall i | 0 <= i < |trades|
      ensures T.IsAddressText(trades[i].maker) && T.ToLowerCase(trades[i].maker) == trades[i].maker
      ensures T.ParseAddress(trades[i].maker) == T.ParseAddress(trades[i].data.order.maker)
    {
      T.LowerCaseSameAddress(trades[i].data.order.maker);
    }
    T.CommittedListIsVerified(trades, accounts);
    forall i | 0 <= i < |trades| ensures T.Resolves(accounts, args[i], trades[i]) {
    }
  }

  lemma ListedFills(
    accounts: seq<Address>, operator: Address, args: seq<T.TradeArg>, trades: seq<T.TempTradeArg>)
    requires AllPointTo(accounts, operator, args, trades)
    ensures AreFills(args)
  {
    forall i | 0 <= i < |args| ensures PointsTo(accounts, operator, args[i], trades[i]) {
    }
  }

  ghost predicate MovedBy(before: Balance, after: Balance, gain: Gain) {
    && after.Margin() == before.Margin() + gain.margin
    && after.Position() == before.Position() + gain.position
  }

  /** Whenever the trade is executed, the gain is one that can be computed, and the operator has it. */
  ghost predicate BringsGain(accounts: seq<Address>, operator: Address, arg: TradeArg, gain: Option<Gain>) {
    forall s, env, sender, flags :: RunTrade(s, env, sender, accounts, arg, flags).Some? ==>
      && gain.Some?
      && MovedBy(
           s.BalanceOf(operator),
           RunTrade(s, env, sender, accounts, arg, flags).value.0.BalanceOf(operator), gain.value)
  }

  ghost predicate AllBringGains(
    accounts: seq<Address>, operator: Address, args: seq<TradeArg>, gains: seq<Option<Gain>>)
  {
    |gains| == |args| && forall i :: 0 <= i < |args| ==> BringsGain(accounts, operator, args[i], gains[i])
  }

  lemma FillMoves(data: T.Payload, orders: Orders.State, view: TraderView)
    requires data.FillPayload? && HasAddresses(data.order)
    requires OrderTrade(Orders.Linear, orders, EncodeTradeData(data)).Execute(view).Some?
    ensures TakerGain(data).Some?
    ensures var r := OrderTrade(Orders.Linear, orders, EncodeTradeData(data)).Execute(view).value;
      var sign := if r.isBuy then -1 else 1;
      TakerGain(data).value == Gain(sign * r.marginAmount, -sign * r.positionAmount)
  {
  }

  lemma FillBringsGain(
    accounts: seq<Address>, operator: Address, arg: T.TradeArg, orders: Orders.State, trade: T.TempTradeArg)
    requires PointsTo(accounts, operator, arg, trade)
    ensures BringsGain(accounts, operator, ToChain(arg, orders), TakerGain(trade.data))
  {
    var chain := ToChain(arg, orders);
    forall s, env, sender, flags | RunTrade(s, env, sender, accounts, chain, flags).Some?
      ensures TakerGain(trade.data).Some?
      ensures MovedBy(
        s.BalanceOf(operator), RunTrade(s, env, sender, accounts, chain, flags).value.0.BalanceOf(operator),
        TakerGain(trade.data).value)
    {
      var view := TraderView(
        s, env.now, sender, accounts[arg.makerIndex], accounts[arg.takerIndex], env.price, flags);
      FillMoves(arg.data, orders, view);
      ApplyResultMoves(s, view.maker, operator, chain.execute(view).value);
    }
  }

  lemma FillsBringGains(
    accounts: seq<Address>, operator: Address, args: seq<T.TradeArg>, states: seq<Orders.State>,
    trades: seq<T.TempTradeArg>)
    requires AllPointTo(accounts, operator, args, trades) && AreFills(args) && |states| == |args|
    ensures AllBringGains(accounts, operator, AllToChain(args, states), TakerGains(trades))
  {
    forall i | 0 <= i < |args|
      ensures BringsGain(accounts, operator, AllToChain(args, states)[i], TakerGains(trades)[i])
    {
      assert PointsTo(accounts, operator, args[i], trades[i]);
      FillBringsGain(accounts, operator, args[i], states[i], trades[i]);
    }
  }

  lemma {:induction false} GainsAddUp(
    s: State, env: Env, sender: Address, accounts: seq<Address>, args: seq<TradeArg>, flags: set<nat>,
    operator: Address, gains: seq<Option<Gain>>)
    requires AllBringGains(accounts, operator, args, gains)
    requires RunTrades(s, env, sender, accounts, args, flags).Some?
    ensures AllComputed(gains)
    ensures MovedBy(
      s.BalanceOf(operator), RunTrades(s, env, sender, accounts, args, flags).value.BalanceOf(operator),
      TotalGain(gains))
    decreases |args|
  {
    if args != [] {
      assert BringsGain(accounts, operator, args[0], gains[0]);
      var (s', flags') := RunTrade(s, env, sender, accounts, args[0], flags).value;
      GainsAddUp(s', env, sender, accounts, args[1..], flags', operator, gains[1..]);
      assert forall i :: 1 <= i < |gains| ==> gains[i] == gains[1..][i - 1];
    }
  }

  // ---------- The matched batch ----------

  lemma {:induction false} MatchedAreOperatorFills(
    ordersAddress: string, operator: string, taker: T.SignedOrder, orders: seq<ApiOrder>, remaining: nat)
    requires AllFillable(orders) && AllForeign(operator, taker, orders) && T.IsAddressText(ordersAddress)
    ensures AllOperatorFills(
      ordersAddress, operator, MatchedTrades(ordersAddress, operator, taker, orders, remaining))
    decreases |orders|
  {
    if orders != [] && remaining > 0 {
      var traded: nat := BaseMath.Min(remaining, orders[0].Available());
      MatchedAreOperatorFills(ordersAddress, operator, taker, orders[1..], remaining - traded);
    }
  }

  ghost predicate OtherSide(taker: T.SignedOrder, orders: seq<ApiOrder>) {
    forall i :: 0 <= i < |orders| ==> orders[i].order.isBuy != taker.isBuy
  }

  /** The match has no rebate in it. */
  predicate MatchTakesNoRebate(maker: T.SignedOrder) {
    TakesNoRebate(EncodeFill(0, maker.limitPrice, maker.limitFee))
  }

  predicate NoRebates(orders: seq<ApiOrder>) {
    forall i :: 0 <= i < |orders| ==> MatchTakesNoRebate(orders[i].order)
  }

  /** Two gains that cancel in position, and in margin are no loss. */
  predicate IsMatchGain(first: Option<Gain>, second: Option<Gain>, noLoss: bool) {
    first.Some? && second.Some? ==>
      && first.value.position + second.value.position == 0
      && (noLoss ==> first.value.margin + second.value.margin >= 0)
  }

  lemma MatchIsGain(taker: T.SignedOrder, maker: T.SignedOrder, traded: nat)
    requires maker.isBuy != taker.isBuy
    ensures IsMatchGain(
      TakerGain(T.FillPayload(maker, traded, maker.limitPrice, maker.limitFee)),
      TakerGain(T.FillPayload(taker, traded, maker.limitPrice, maker.limitFee)), MatchTakesNoRebate(maker))
  {
    if HasAddresses(maker) && HasAddresses(taker) && MatchTakesNoRebate(maker) {
      var (buy, sell) := if maker.isBuy then (maker, taker) else (taker, maker);
      BuyerCoversSeller(
        EncodeOrder(buy), EncodeOrder(sell), EncodeFill(traded, maker.limitPrice, maker.limitFee));
    }
  }

  /** For any amount, the two fills of a match with one of these orders bring the gains of a match. */
  ghost predicate AllMatchGains(
    gain: T.Payload -> Option<Gain>, taker: T.SignedOrder, orders: seq<ApiOrder>, noLoss: bool)
  {
    forall i, traded: nat :: 0 <= i < |orders| ==>
      var maker := orders[i].order;
      IsMatchGain(
        gain(T.FillPayload(maker, traded, maker.limitPrice, maker.limitFee)),
        gain(T.FillPayload(taker, traded, maker.limitPrice, maker.limitFee)), noLoss)
  }

  lemma MatchesAreGains(taker: T.SignedOrder, orders: seq<ApiOrder>)
    requires OtherSide(taker, orders)
    ensures AllMatchGains(TakerGain, taker, orders, NoRebates(orders))
  {
    forall i, traded: nat | 0 <= i < |orders|
      ensures var maker := orders[i].order;
        IsMatchGain(
          TakerGain(T.FillPayload(maker, traded, maker.limitPrice, maker.limitFee)),
          TakerGain(T.FillPayload(taker, traded, maker.limitPrice, maker.limitFee)), NoRebates(orders))
    {
      MatchIsGain(taker, orders[i].order, traded);
    }
  }

  /** A list of match gains, two by two. */
  ghost predicate AreMatchGains(gains: seq<Option<Gain>>, noLoss: bool)
    decreases |gains|
  {
    gains == [] ||
    (|gains| >= 2 && IsMatchGain(gains[0], gains[1], noLoss) && AreMatchGains(gains[2..], noLoss))
  }

  lemma MatchGainsExtend(first: Option<Gain>, second: Option<Gain>, rest: seq<Option<Gain>>, noLoss: bool)
    requires IsMatchGain(first, second, noLoss) && AreMatchGains(rest, noLoss)
    ensures AreMatchGains([first, second] + rest, noLoss)
  {
    assert ([first, second] + rest)[2..] == rest;
  }

  lemma {:induction false} MatchedAreMatchGains(
    gain: T.Payload -> Option<Gain>, ordersAddress: string, operator: string, taker: T.SignedOrder,
    orders: seq<ApiOrder>, remaining: nat, noLoss: bool)
    requires AllFillable(orders) && AllMatchGains(gain, taker, orders, noLoss)
    ensures AreMatchGains(
      GainsOf(gain, MatchedTrades(ordersAddress, operator, taker, orders, remaining)), noLoss)
    decreases |orders|
  {
    if orders != [] && remaining > 0 {
      var maker, traded: nat := orders[0].order, BaseMath.Min(remaining, orders[0].Available());
      var rest := MatchedTrades(ordersAddress, operator, taker, orders[1..], remaining - traded);
      var first := gain(T.FillPayload(maker, traded, maker.limitPrice, maker.limitFee));
      var second := gain(T.FillPayload(taker, traded, maker.limitPrice, maker.limitFee));
      assert GainsOf(gain, MatchedTrades(ordersAddress, operator, taker, orders, remaining))
          == [first, second] + GainsOf(gain, rest);
      MatchedAreMatchGains(gain, ordersAddress, operator, taker, orders[1..], remaining - traded, noLoss);
      MatchGainsExtend(first, second, GainsOf(gain, rest), noLoss);
    }
  }

  /** All matches together buy for the operator what they sell, and lose nothing if none of them does. */
  lemma {:induction false} TotalOfMatches(gains: seq<Option<Gain>>, noLoss: bool)
    requires AllComputed(gains) && AreMatchGains(gains, noLoss)
    ensures TotalGain(gains).position == 0
    ensures noLoss ==> TotalGain(gains).margin >= 0
    decreases |gains|
  {
    if gains != [] {
      assert gains[1..][0] == gains[1] && gains[1..][1..] == gains[2..];
      TotalOfMatches(gains[2..], noLoss);
    }
  }

  // ---------- The batch on the chain ----------

  /** If the batch is executed, the gains can be computed, and the account has all of them. */
  ghost predicate BatchMovesBy(
    batch: Option<(State, State, Context)>, account: Address, gains: seq<Option<Gain>>)
  {
    batch.Some? ==>
      && AllComputed(gains)
      && MovedBy(batch.value.0.BalanceOf(account), batch.value.1.BalanceOf(account), TotalGain(gains))
  }

  /** If the batch is executed, the position is what it was, and the margin has exactly the total gain. */
  ghost predicate BatchKeepsPosition(
    batch: Option<(State, State, Context)>, account: Address, gains: seq<Option<Gain>>, noLoss: bool)
  {
    batch.Some? ==>
      var before, after := batch.value.0.BalanceOf(account), batch.value.1.BalanceOf(account);
      && AllComputed(gains)
      && after.Position() == before.Position()
      && after.Margin() == before.Margin() + TotalGain(gains).margin
      && (noLoss ==> after.Margin() >= before.Margin())
  }

  lemma TotalKeepsPosition(
    batch: Option<(State, State, Context)>, account: Address, gains: seq<Option<Gain>>, noLoss: bool)
    requires BatchMovesBy(batch, account, gains) && AreMatchGains(gains, noLoss)
    ensures BatchKeepsPosition(batch, account, gains, noLoss)
  {
    if batch.Some? {
      TotalOfMatches(gains, noLoss);
    }
  }

  /**
   The batch that commit builds from fills of the operator has an account list that the contract accepts. If
   the contract executes it, whatever the state of the order contract is at each of its trades, the operator's
   balance changes by exactly what the fills add up to.
   */
  lemma OperatorAfterBatch(
    s: State, env: Env, sender: Address, ordersAddress: string, operator: string, trades: seq<T.TempTradeArg>,
    accounts: seq<string>, args: seq<T.TradeArg>, states: seq<Orders.State>)
    requires trades != [] && AllOperatorFills(ordersAddress, operator, trades)
    requires T.IsAddressText(operator)
    requires T.Builds(trades, accounts, args) && |states| == |args|
    ensures forall i :: 0 <= i < |accounts| ==> T.IsAddressText(accounts[i])
    ensures VerifyAccounts(T.ParseAll(accounts))
    ensures AreFills(args)
    ensures BatchMovesBy(
      ExecuteBatch(s, env, sender, T.ParseAll(accounts), AllToChain(args, states)), T.ParseAddress(operator),
      TakerGains(trades))
  {
    CommittedArgsPointTo(ordersAddress, operator, trades, accounts, args);
    ListedFills(T.ParseAll(accounts), T.ParseAddress(operator), args, trades);
    FillsBringGains(T.ParseAll(accounts), T.ParseAddress(operator), args, states, trades);
    GainsAddUpInBatch(
      s, env, sender, T.ParseAll(accounts), AllToChain(args, states), T.ParseAddress(operator), TakerGains(trades));
  }

  lemma GainsAddUpInBatch(
    s: State, env: Env, sender: Address, accounts: seq<Address>, args: seq<TradeArg>, operator: Address,
    gains: seq<Option<Gain>>)
    requires AllBringGains(accounts, operator, args, gains)
    ensures BatchMovesBy(ExecuteBatch(s, env, sender, accounts, args), operator, gains)
  {
    var batch := ExecuteBatch(s, env, sender, accounts, args);
    if batch.Some? {
      GainsAddUp(batch.value.0, env, sender, accounts, args, {}, operator, gains);
    }
  }

  /**
   From matching to settlement: after the batch that a match commits, the operator has the position it had,
   and exactly the fills' total more margin, which is no loss if there is no rebate in the matches.
   */
  lemma OperatorUnharmed(
    s: State, env: Env, sender: Address, ordersAddress: string, operator: string, taker: T.SignedOrder,
    orders: seq<ApiOrder>, accounts: seq<string>, args: seq<T.TradeArg>, states: seq<Orders.State>)
    requires orders != [] && taker.amount > 0
    requires AllFillable(orders) && OtherSide(taker, orders)
    requires AllForeign(operator, taker, orders) && T.IsAddressText(ordersAddress)
    requires T.Builds(MatchedTrades(ordersAddress, operator, taker, orders, taker.amount), accounts, args)
    requires |states| == |args|
    ensures forall i :: 0 <= i < |accounts| ==> T.IsAddressText(accounts[i])
    ensures VerifyAccounts(T.ParseAll(accounts))
    ensures AreFills(args)
    ensures BatchKeepsPosition(
      ExecuteBatch(s, env, sender, T.ParseAll(accounts), AllToChain(args, states)), T.ParseAddress(operator),
      TakerGains(MatchedTrades(ordersAddress, operator, taker, orders, taker.amount)), NoRebates(orders))
  {
    var trades := MatchedTrades(ordersAddress, operator, taker, orders, taker.amount);
    MatchedAreOperatorFills(ordersAddress, operator, taker, orders, taker.amount);
    OperatorAfterBatch(s, env, sender, ordersAddress, operator, trades, accounts, args, states);
    MatchesAreGains(taker, orders);
    MatchedAreMatchGains(TakerGain, ordersAddress, operator, taker, orders, taker.amount, NoRebates(orders));
    TotalKeepsPosition(
      ExecuteBatch(s, env, sender, T.ParseAll(accounts), AllToChain(args, states)), T.ParseAddress(operator),
      TakerGains(trades), NoRebates(orders));
  }
}
