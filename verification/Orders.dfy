/**
 P1Orders and P1InverseOrders: signed orders that are filled in parts. The two contracts keep the same
 state and differ in how a fill is priced. The hash of an order is taken to be the order itself.
 */
module Orders {
  import opened Options
  import opened BaseMath
  import opened BalanceMath
  import opened Permissions
  import L = Ledger

  type Address = L.Address

  /** Prices are in margin per position, or, for inverse perpetuals, in position per margin. */
  datatype Market = Linear | Inverse

  datatype Status = Open | Approved | Canceled

  /** The flags word is split into the three bits that are read and the rest, which only makes orders differ. */
  datatype Order = Order(
    isBuy: bool, isDecreaseOnly: bool, isNegativeLimitFee: bool, otherFlags: nat, amount: nat, limitPrice: nat,
    triggerPrice: nat, limitFee: nat, maker: Address, taker: Address, expiration: nat)

  datatype Fill = Fill(amount: nat, price: nat, fee: nat, isNegativeFee: bool)

  /** `signer` is the address recovered from the signature. */
  datatype TradeData = TradeData(order: Order, fill: Fill, signer: Address)

  datatype State = State(filled: map<Order, nat>, status: map<Order, Status>) {
    function FilledAmount(order: Order): nat {
      if order in filled then filled[order] else 0
    }

    function StatusOf(order: Order): Status {
      if order in status then status[order] else Open
    }
  }

  const FLAGS: set<nat> := {0}

  // ---------- Prices ----------

  /** The fill's price and fee respect the order's limits. */
  predicate ValidFill(order: Order, fill: Fill) {
    && (if order.isBuy then fill.price <= order.limitPrice else fill.price >= order.limitPrice)
    && (if order.isNegativeLimitFee then fill.isNegativeFee && fill.fee >= order.limitFee
        else fill.isNegativeFee || fill.fee <= order.limitFee)
  }

  function Subtract(a: nat, b: nat): (r: Option<nat>)
    ensures r.None? <==> a < b
  {
    if a < b then None else Some(a - b)
  }

  /** P1Orders: the price with the fee taken off or put on. */
  function MarginPerPosition(order: Order, fill: Fill): Option<nat> {
    var fee := BaseMul(fill.fee, fill.price);
    if order.isBuy == fill.isNegativeFee then Subtract(fill.price, fee) else Some(fill.price + fee)
  }

  /** P1InverseOrders: the fee as a factor on the margin. */
  function FeeFactor(order: Order, fill: Fill): Option<nat> {
    if order.isBuy == fill.isNegativeFee then Some(BASE + fill.fee) else Subtract(BASE, fill.fee)
  }

  /** The margin that changes hands. Arithmetic that underflows or divides by zero reverts. */
  function MarginAmount(market: Market, order: Order, fill: Fill): Option<nat> {
    match market
    case Linear =>
      var marginPerPosition :- MarginPerPosition(order, fill);
      Some(BaseMul(fill.amount, marginPerPosition))
    case Inverse =>
      var feeFactor :- FeeFactor(order, fill);
      GetFraction(fill.amount, feeFactor, fill.price)
  }

  /** The order's maker gives margin: a buy, or in an inverse market a sell. */
  predicate MakerPays(market: Market, order: Order) {
    order.isBuy == market.Linear?
  }

  /** The same formulas at the limit price and limit fee, as a fraction that may be negative. */
  function LimitNumerator(market: Market, order: Order): int {
    match market
    case Linear =>
      var fee := BaseMul(order.limitFee, order.limitPrice);
      if order.isBuy == order.isNegativeLimitFee then order.limitPrice - fee else order.limitPrice + fee
    case Inverse =>
      if order.isBuy == order.isNegativeLimitFee then BASE + order.limitFee else BASE - order.limitFee
  }

  function LimitDenominator(market: Market, order: Order): nat {
    match market
    case Linear => BASE
    case Inverse => order.limitPrice
  }

  lemma FeeMonotone(fee: nat, price: nat, fee': nat, price': nat)
    requires fee <= fee' && price <= price'
    ensures BaseMul(fee, price) <= BaseMul(fee', price')
  {
    assert fee * price <= fee' * price';
  }

  /** With a fee of at most 100 percent, the fee grows no faster than the price. */
  lemma FeeSlope(fee: nat, price: nat, price': nat)
    requires fee <= BASE && price <= price'
    ensures BaseMul(fee, price') <= BaseMul(fee, price) + (price' - price)
  {
  }

  lemma FeeAboveAll(fee: nat, price: nat)
    requires fee >= BASE
    ensures BaseMul(fee, price) >= price
  {
  }

  lemma BuyWithinLimit(order: Order, fill: Fill)
    requires order.isBuy && ValidFill(order, fill)
    requires LimitNumerator(Linear, order) >= 0
    requires MarginPerPosition(order, fill).Some?
    ensures MarginPerPosition(order, fill).value <= LimitNumerator(Linear, order)
  {
    if !order.isNegativeLimitFee {
      if !fill.isNegativeFee {
        FeeMonotone(fill.fee, fill.price, order.limitFee, order.limitPrice);
      }
    } else if order.limitFee <= BASE {
      FeeMonotone(order.limitFee, fill.price, fill.fee, fill.price);
      FeeSlope(order.limitFee, fill.price, order.limitPrice);
    } else {
      FeeAboveAll(fill.fee, fill.price);
    }
  }

  lemma SellWithinLimit(order: Order, fill: Fill)
    requires !order.isBuy && ValidFill(order, fill)
    requires MarginPerPosition(order, fill).Some?
    ensures MarginPerPosition(order, fill).value >= LimitNumerator(Linear, order)
  {
    if order.isNegativeLimitFee {
      FeeMonotone(order.limitFee, order.limitPrice, fill.fee, fill.price);
    } else if !fill.isNegativeFee && order.limitFee <= BASE {
      FeeMonotone(fill.fee, fill.price, order.limitFee, fill.price);
      FeeSlope(order.limitFee, order.limitPrice, fill.price);
    } else {
      if order.limitFee > BASE {
        FeeAboveAll(order.limitFee, order.limitPrice);
      }
    }
  }

  /**
   Exactly when a buy order's limit binds every fill: when the contract's own formula does not underflow
   at the limit. A rebate limit above 100 percent is the failing family; a fill at price zero shows it.
   */
  lemma BuyLimitExactly(order: Order)
    requires order.isBuy
    ensures (forall fill :: ValidFill(order, fill) && MarginPerPosition(order, fill).Some? ==>
              MarginPerPosition(order, fill).value <= LimitNumerator(Linear, order))
      <==> LimitNumerator(Linear, order) >= 0
  {
    if LimitNumerator(Linear, order) >= 0 {
      forall fill | ValidFill(order, fill) && MarginPerPosition(order, fill).Some?
        ensures MarginPerPosition(order, fill).value <= LimitNumerator(Linear, order)
      {
        BuyWithinLimit(order, fill);
      }
    } else {
      var free := Fill(1, 0, order.limitFee, true);
      assert BaseMul(order.limitFee, 0) == 0;
      assert ValidFill(order, free) && MarginPerPosition(order, free) == Some(0);
    }
  }

  /**
   An order of the failing family, and its fill: to buy one unit at up to the price of one for at least a double
   rebate, so that the limit asks for a payment to the maker. The contract fills it at price zero for nothing.
   */
  lemma FreeFillIsAccepted()
    ensures var order := Order(true, false, true, 0, BASE, BASE, 0, 2 * BASE, 1, 0, 0);
      var data := TradeData(order, Fill(BASE, 0, 2 * BASE, true), 1);
      var view := L.TraderView(L.Initial(0, 0, BASE), 0, 2, 1, 2, BASE, {});
      && LimitNumerator(Linear, order) == 0 - BASE
      && FillOrder(Linear, State(map[], map[]), data, view)
           == Some((State(map[order := BASE], map[]), L.TradeResult(0, BASE, false, FLAGS)))
  {
    assert BaseMul(2 * BASE, BASE) == 2 * BASE;
    assert BaseMul(2 * BASE, 0) == 0 && BaseMul(BASE, 0) == 0;
  }

  lemma FactorWithinLimit(order: Order, fill: Fill)
    requires ValidFill(order, fill) && FeeFactor(order, fill).Some?
    ensures order.isBuy ==> FeeFactor(order, fill).value >= LimitNumerator(Inverse, order)
    ensures !order.isBuy ==> FeeFactor(order, fill).value <= LimitNumerator(Inverse, order)
  {
  }

  /** The limit theorem for one fill, as products: a maker who pays, and one who is paid. */
  lemma FillWithinLimit(market: Market, order: Order, fill: Fill)
    requires ValidFill(order, fill) && MarginAmount(market, order, fill).Some?
    ensures MakerPays(market, order) && (market.Inverse? || LimitNumerator(market, order) >= 0) ==>
      MarginAmount(market, order, fill).value * LimitDenominator(market, order)
        <= fill.amount * LimitNumerator(market, order)
    ensures !MakerPays(market, order) ==>
      (MarginAmount(market, order, fill).value + 1) * LimitDenominator(market, order)
        > fill.amount * LimitNumerator(market, order)
  {
    var m := MarginAmount(market, order, fill).value;
    var limit := LimitNumerator(market, order);
    match market
    case Linear =>
      var x := MarginPerPosition(order, fill).value;
      if order.isBuy && limit >= 0 {
        BuyWithinLimit(order, fill);
        Scale(fill.amount, x, limit);
      } else if !order.isBuy {
        SellWithinLimit(order, fill);
        Scale(fill.amount, limit, x);
      }
    case Inverse =>
      var x := FeeFactor(order, fill).value;
      FactorWithinLimit(order, fill);
      if order.isBuy {
        Scale(fill.amount, limit, x);
        Scale(m + 1, fill.price, order.limitPrice);
        assert (m + 1) * fill.price == m * fill.price + fill.price;
      } else {
        Scale(fill.amount, x, limit);
        Scale(m, order.limitPrice, fill.price);
      }
  }

  /** At the limit itself the margin is exactly the floor of the limit fraction. */
  lemma FillAtLimitIsExact(market: Market, order: Order, fill: Fill)
    requires fill.price == order.limitPrice && fill.fee == order.limitFee
    requires fill.isNegativeFee == order.isNegativeLimitFee
    ensures ValidFill(order, fill)
    ensures MarginAmount(market, order, fill).Some? <==>
      LimitNumerator(market, order) >= 0 && LimitDenominator(market, order) > 0
    ensures MarginAmount(market, order, fill).Some? ==>
      MarginAmount(market, order, fill).value
        == (fill.amount * LimitNumerator(market, order)) / LimitDenominator(market, order)
  {
  }

  // ---------- The contract ----------

  predicate VerifyOrderStateAndSignature(s: State, data: TradeData) {
    match s.StatusOf(data.order)
    case Open => data.order.maker == data.signer
    case Approved => true
    case Canceled => false
  }

  function VerifyOrderRequest(market: Market, data: TradeData, view: L.TraderView): Option<()> {
    var order, fill := data.order, data.fill;
    var _ :- Require(order.maker == view.maker);
    var _ :- Require(order.taker == view.taker || order.taker == 0);
    var _ :- Require(order.expiration >= view.now || order.expiration == 0);
    var _ :- Require(ValidFill(order, fill));
    var oraclePrice :- if market.Linear? then Some(view.price) else BaseReciprocal(view.price);
    var _ :- Require(order.triggerPrice == 0 ||
      if order.isBuy then order.triggerPrice <= oraclePrice else order.triggerPrice >= oraclePrice);
    var balance := view.state.BalanceOf(view.maker);
    Require(!order.isDecreaseOnly ||
      ((order.isBuy == balance.positionIsPositive) == market.Inverse? && fill.amount <= balance.position))
  }

  function FillOrder(market: Market, s: State, data: TradeData, view: L.TraderView): Option<(State, L.TradeResult)> {
    var _ :- Require(view.taker == view.sender || view.state.HasAccountPermissions(view.taker, view.sender));
    var _ :- Require(VerifyOrderStateAndSignature(s, data));
    var _ :- VerifyOrderRequest(market, data, view);
    var newFilledAmount := s.FilledAmount(data.order) + data.fill.amount;
    var _ :- Require(newFilledAmount <= data.order.amount);
    var s' := s.(filled := s.filled[data.order := newFilledAmount]);
    var marginAmount :- MarginAmount(market, data.order, data.fill);
    Some((s', L.TradeResult(marginAmount, data.fill.amount, data.order.isBuy == market.Inverse?, FLAGS)))
  }

  function ApproveOrder(s: State, sender: Address, order: Order): Option<State> {
    var _ :- Require(sender == order.maker);
    var _ :- Require(!s.StatusOf(order).Canceled?);
    Some(s.(status := s.status[order := Approved]))
  }

  function CancelOrder(s: State, sender: Address, order: Order): Option<State> {
    var _ :- Require(sender == order.maker);
    Some(s.(status := s.status[order := Canceled]))
  }

  class OrdersTrader {
    const market: Market
    var filled: map<Order, nat>
    var status: map<Order, Status>

    function Abs(): State
      reads this
    {
      State(filled, status)
    }

    constructor (market: Market)
      ensures this.market == market && Abs() == State(map[], map[])
    {
      this.market := market;
      filled, status := map[], map[];
    }

    method Trade(data: TradeData, view: L.TraderView) returns (r: Option<L.TradeResult>)
      modifies this
      ensures r.Some? == FillOrder(market, old(Abs()), data, view).Some?
      ensures r.Some? ==> (Abs(), r.value) == FillOrder(market, old(Abs()), data, view).value
      ensures r.None? ==> Abs() == old(Abs())
    {
      if view.taker != view.sender && !view.state.HasAccountPermissions(view.taker, view.sender) {
        return None;
      }
      if !VerifyOrderStateAndSignature(Abs(), data) || VerifyOrderRequest(market, data, view).None? {
        return None;
      }
      var saved := filled;
      var newFilledAmount := Abs().FilledAmount(data.order) + data.fill.amount;
      if newFilledAmount > data.order.amount {
        return None;
      }
      filled := filled[data.order := newFilledAmount];
      var marginAmount := MarginAmount(market, data.order, data.fill);
      if marginAmount.None? {
        filled := saved;
        return None;
      }
      var isBuy := if market.Linear? then !data.order.isBuy else data.order.isBuy;
      return Some(L.TradeResult(marginAmount.value, data.fill.amount, isBuy, FLAGS));
    }

    method Approve(sender: Address, order: Order) returns (ok: bool)
      modifies this
      ensures ok == ApproveOrder(old(Abs()), sender, order).Some?
      ensures Abs() == if ok then ApproveOrder(old(Abs()), sender, order).value else old(Abs())
    {
      ok := sender == order.maker && !Abs().StatusOf(order).Canceled?;
      if ok {
        status := status[order := Approved];
      }
    }

    method Cancel(sender: Address, order: Order) returns (ok: bool)
      modifies this
      ensures ok == CancelOrder(old(Abs()), sender, order).Some?
      ensures Abs() == if ok then CancelOrder(old(Abs()), sender, order).value else old(Abs())
    {
      ok := sender == order.maker;
      if ok {
        status := status[order := Canceled];
      }
    }

    method GetOrdersStatus(orders: seq<Order>) returns (result: seq<(Status, nat)>)
      ensures |result| == |orders|
      ensures forall i :: 0 <= i < |orders| ==> result[i] == (Abs().StatusOf(orders[i]), Abs().FilledAmount(orders[i]))
    {
      result := [];
      for i := 0 to |orders|
        invariant |result| == i
        invariant forall k :: 0 <= k < i ==> result[k] == (Abs().StatusOf(orders[k]), Abs().FilledAmount(orders[k]))
      {
        result := result + [(Abs().StatusOf(orders[i]), Abs().FilledAmount(orders[i]))];
      }
    }
  }

  // ---------- Runs ----------

  datatype Event =
    | FillEvent(data: TradeData, view: L.TraderView)
    | ApproveEvent(sender: Address, order: Order)
    | CancelEvent(sender: Address, order: Order)

  function TryEvent(market: Market, s: State, e: Event): Option<State> {
    match e
    case FillEvent(data, view) => var (s', _) :- FillOrder(market, s, data, view); Some(s')
    case ApproveEvent(sender, order) => ApproveOrder(s, sender, order)
    case CancelEvent(sender, order) => CancelOrder(s, sender, order)
  }

  function TakeEvent(market: Market, s: State, e: Event): State {
    match TryEvent(market, s, e)
    case Some(s') => s'
    case None => s
  }

  /** The state after the events. */
  function After(market: Market, s: State, events: seq<Event>): State
    decreases |events|
  {
    if events == [] then s else After(market, TakeEvent(market, s, events[0]), events[1..])
  }

  predicate Fills(market: Market, s: State, e: Event, order: Order) {
    e.FillEvent? && e.data.order == order && FillOrder(market, s, e.data, e.view).Some?
  }

  /** Position amount and margin of all accepted fills of one order. */
  function Totals(market: Market, s: State, events: seq<Event>, order: Order): (nat, nat)
    decreases |events|
  {
    if events == [] then
      (0, 0)
    else
      var (amount, margin) := Totals(market, TakeEvent(market, s, events[0]), events[1..], order);
      if Fills(market, s, events[0], order) then
        var (_, r) := FillOrder(market, s, events[0].data, events[0].view).value;
        (amount + r.positionAmount, margin + r.marginAmount)
      else
        (amount, margin)
  }

  /** The recorded amount counts the fills, and never passes the order's amount. */
  lemma {:induction false} FilledWithinAmount(market: Market, s: State, events: seq<Event>, order: Order)
    requires s.FilledAmount(order) <= order.amount
    ensures s.FilledAmount(order) + Totals(market, s, events, order).0
         == After(market, s, events).FilledAmount(order) <= order.amount
    decreases |events|
  {
    if events != [] {
      var s' := TakeEvent(market, s, events[0]);
      OneEventCounts(market, s, events[0], order);
      FilledWithinAmount(market, s', events[1..], order);
    }
  }

  lemma OneEventCounts(market: Market, s: State, e: Event, order: Order)
    requires s.FilledAmount(order) <= order.amount
    ensures var s' := TakeEvent(market, s, e);
      s'.FilledAmount(order) <= order.amount &&
      s'.FilledAmount(order) == s.FilledAmount(order) + if Fills(market, s, e, order) then e.data.fill.amount else 0
  {
  }

  /** Nothing fills an order after it was canceled, not even after an approval. */
  lemma {:induction false} NothingAfterCancel(market: Market, s: State, events: seq<Event>, order: Order)
    requires s.StatusOf(order).Canceled?
    ensures Totals(market, s, events, order) == (0, 0)
    ensures After(market, s, events).StatusOf(order).Canceled?
    decreases |events|
  {
    if events != [] {
      NothingAfterCancel(market, TakeEvent(market, s, events[0]), events[1..], order);
    }
  }

  /** Over any run, a maker who pays never pays more than the limit for all that was filled. */
  lemma {:induction false} TotalWithinLimit(market: Market, s: State, events: seq<Event>, order: Order)
    requires MakerPays(market, order) && (market.Inverse? || LimitNumerator(market, order) >= 0)
    ensures var (amount, margin) := Totals(market, s, events, order);
      margin * LimitDenominator(market, order) <= amount * LimitNumerator(market, order)
    decreases |events|
  {
    if events != [] {
      TotalWithinLimit(market, TakeEvent(market, s, events[0]), events[1..], order);
      if Fills(market, s, events[0], order) {
        var fill := events[0].data.fill;
        var m := FillOrder(market, s, events[0].data, events[0].view).value.1.marginAmount;
        FillWithinLimit(market, order, fill);
        var (amount, margin) := Totals(market, TakeEvent(market, s, events[0]), events[1..], order);
        Distribute(amount, fill.amount, LimitNumerator(market, order));
        Distribute(margin, m, LimitDenominator(market, order));
      }
    }
  }

  lemma Distribute(a: int, b: int, k: int)
    ensures (a + b) * k == a * k + b * k
  {
  }

  lemma FloorAtLeast(n: int, q: int, d: nat)
    requires d > 0 && q * d <= n
    ensures q <= n / d
  {
    var f := n / d;
    assert n == f * d + n % d;
    if f < q {
      Scale(d, f + 1, q);
    }
  }

  lemma FloorBelow(n: int, q: int, d: nat)
    requires d > 0 && n < (q + 1) * d
    ensures n / d <= q
  {
    var f := n / d;
    assert n == f * d + n % d;
    if f > q {
      Scale(d, q + 1, f);
    }
  }

  /** The limit guarantees from deployment on, in whole token units. */
  lemma LifetimeLimits(market: Market, events: seq<Event>, order: Order)
    ensures var s0 := State(map[], map[]);
      var (amount, margin) := Totals(market, s0, events, order);
      && amount == After(market, s0, events).FilledAmount(order) <= order.amount
      && (MakerPays(market, order) && LimitDenominator(market, order) > 0 &&
          (market.Inverse? || LimitNumerator(market, order) >= 0) ==>
          margin <= (amount * LimitNumerator(market, order)) / LimitDenominator(market, order))
  {
    var s0 := State(map[], map[]);
    FilledWithinAmount(market, s0, events, order);
    if MakerPays(market, order) && (market.Inverse? || LimitNumerator(market, order) >= 0) {
      TotalWithinLimit(market, s0, events, order);
      var (amount, margin) := Totals(market, s0, events, order);
      if LimitDenominator(market, order) > 0 {
        FloorAtLeast(amount * LimitNumerator(market, order), margin, LimitDenominator(market, order));
      }
    }
  }

  /** A maker who is paid gets at least the floor of the limit, fill by fill and without any condition. */
  lemma EachFillPaysLimit(market: Market, s: State, data: TradeData, view: L.TraderView)
    requires FillOrder(market, s, data, view).Some?
    requires !MakerPays(market, data.order)
    ensures LimitDenominator(market, data.order) > 0
    ensures FillOrder(market, s, data, view).value.1.marginAmount
      >= (data.fill.amount * LimitNumerator(market, data.order)) / LimitDenominator(market, data.order)
  {
    FillWithinLimit(market, data.order, data.fill);
    FloorBelow(data.fill.amount * LimitNumerator(market, data.order),
      FillOrder(market, s, data, view).value.1.marginAmount, LimitDenominator(market, data.order));
  }

  /** An approved order was approved by its maker at some point of the run. */
  lemma {:induction false} ApprovalHasEvent(market: Market, s: State, events: seq<Event>, order: Order)
    requires !s.StatusOf(order).Approved? && After(market, s, events).StatusOf(order).Approved?
    ensures exists i :: 0 <= i < |events| && events[i] == ApproveEvent(order.maker, order)
    decreases |events|
  {
    var s' := TakeEvent(market, s, events[0]);
    if s'.StatusOf(order).Approved? {
      assert events[0] == ApproveEvent(order.maker, order);
    } else {
      ApprovalHasEvent(market, s', events[1..], order);
      var i :| 0 <= i < |events[1..]| && events[1..][i] == ApproveEvent(order.maker, order);
      assert events[i + 1] == ApproveEvent(order.maker, order);
    }
  }

  /** A canceled order was canceled by its maker at some point of the run, and a maker can always cancel. */
  lemma {:induction false} CancelHasEvent(market: Market, s: State, events: seq<Event>, order: Order)
    requires !s.StatusOf(order).Canceled?
    ensures After(market, s, events).StatusOf(order).Canceled? <==>
      exists i :: 0 <= i < |events| && events[i] == CancelEvent(order.maker, order)
    decreases |events|
  {
    if events != [] {
      var s' := TakeEvent(market, s, events[0]);
      if s'.StatusOf(order).Canceled? {
        assert events[0] == CancelEvent(order.maker, order);
        NothingAfterCancel(market, s', events[1..], order);
      } else {
        CancelHasEvent(market, s', events[1..], order);
        assert forall i :: 1 <= i < |events| ==> events[i] == events[1..][i - 1];
        assert forall i :: 0 <= i < |events| - 1 ==> events[1..][i] == events[i + 1];
      }
    }
  }

  // ---------- What is accepted ----------

  /** The order is for this maker, for this taker or any, and has not expired. */
  ghost predicate IsForParties(order: Order, view: L.TraderView) {
    && order.maker == view.maker
    && (order.taker == 0 || order.taker == view.taker)
    && (order.expiration == 0 || view.now <= order.expiration)
  }

  ghost function Signed(magnitude: nat, isNegative: bool): int {
    if isNegative then 0 - magnitude else magnitude
  }

  /** The limits on signed amounts. A limit that is a rebate, even of nothing, takes a rebate. */
  ghost predicate IsWithinLimits(order: Order, fill: Fill) {
    var fee, limitFee := Signed(fill.fee, fill.isNegativeFee), Signed(order.limitFee, order.isNegativeLimitFee);
    && (order.isBuy ==> fill.price <= order.limitPrice)
    && (!order.isBuy ==> fill.price >= order.limitPrice)
    && fee <= limitFee && (order.isNegativeLimitFee ==> fill.isNegativeFee)
  }

  /**
   The oracle's price has reached the trigger from below for a buy and from above for a sell. In an inverse
   market it is the reciprocal that is compared, rounded down.
   */
  ghost predicate IsTriggered(market: Market, order: Order, price: nat) {
    match market
    case Linear =>
      order.triggerPrice == 0 || if order.isBuy then order.triggerPrice <= price else order.triggerPrice >= price
    case Inverse =>
      && price > 0
      && (order.triggerPrice == 0 ||
          if order.isBuy then order.triggerPrice * price <= BASE * BASE
          else (order.triggerPrice + 1) * price > BASE * BASE)
  }

  lemma ReciprocalCompares(trigger: nat, price: nat)
    requires price > 0
    ensures trigger <= BASE * BASE / price <==> trigger * price <= BASE * BASE
    ensures trigger >= BASE * BASE / price <==> (trigger + 1) * price > BASE * BASE
  {
    var q := BASE * BASE / price;
    FloorDivision(BASE * BASE, price);
    if trigger <= q {
      Scale(price, trigger, q);
    } else {
      Scale(price, q + 1, trigger);
    }
    if trigger >= q {
      Scale(price, q + 1, trigger + 1);
    } else {
      Scale(price, trigger + 1, q);
    }
  }

  lemma TriggeredExactly(market: Market, order: Order, price: nat)
    ensures IsTriggered(market, order, price) <==>
      var oraclePrice := if market.Linear? then Some(price) else BaseReciprocal(price);
      && oraclePrice.Some?
      && (order.triggerPrice == 0 ||
          if order.isBuy then order.triggerPrice <= oraclePrice.value else order.triggerPrice >= oraclePrice.value)
  {
    if market.Inverse? && price > 0 {
      ReciprocalCompares(order.triggerPrice, price);
    }
  }

  /** On the other side of the maker's position, and not past zero. */
  ghost predicate IsDecrease(market: Market, order: Order, fill: Fill, b: Balance) {
    && fill.amount <= b.position
    && (order.isBuy == b.positionIsPositive) == market.Inverse?
  }

  /** Signed by the maker or approved, and not canceled. */
  ghost predicate IsAuthorized(s: State, data: TradeData) {
    s.StatusOf(data.order).Approved? || (s.StatusOf(data.order).Open? && data.signer == data.order.maker)
  }

  /** Exactly which fills a contract of either market accepts. */
  lemma FillIsAcceptedExactly(market: Market, s: State, data: TradeData, view: L.TraderView)
    ensures FillOrder(market, s, data, view).Some? <==>
      && MayActFor(view.state, view.taker, view.sender)
      && IsAuthorized(s, data)
      && IsForParties(data.order, view)
      && IsWithinLimits(data.order, data.fill)
      && IsTriggered(market, data.order, view.price)
      && (data.order.isDecreaseOnly ==>
           IsDecrease(market, data.order, data.fill, view.state.BalanceOf(view.maker)))
      && s.FilledAmount(data.order) + data.fill.amount <= data.order.amount
      && MarginAmount(market, data.order, data.fill).Some?
  {
    TriggeredExactly(market, data.order, view.price);
  }

  /**
   No account is charged for an order unless it signed it, or approved it earlier in the run. The fill is for
   these parties, in time, and after the trigger; and who calls may act for the taker.
   */
  lemma FillsAreAuthorized(market: Market, events: seq<Event>, data: TradeData, view: L.TraderView)
    requires FillOrder(market, After(market, State(map[], map[]), events), data, view).Some?
    ensures data.signer == view.maker
      || exists i :: 0 <= i < |events| && events[i] == ApproveEvent(view.maker, data.order)
    ensures IsForParties(data.order, view) && IsTriggered(market, data.order, view.price)
    ensures MayActFor(view.state, view.taker, view.sender)
  {
    FillIsAcceptedExactly(market, After(market, State(map[], map[]), events), data, view);
    if data.signer != data.order.maker {
      ApprovalHasEvent(market, State(map[], map[]), events, data.order);
    }
  }

  /**
   What a fill moves, once the ledger has applied it: a maker who buys in a linear market, or sells in an inverse
   one, gets the amount for the margin, from the taker; and the other way round.
   */
  lemma FillMovesParties(market: Market, s: State, data: TradeData, view: L.TraderView)
    requires FillOrder(market, s, data, view).Some? && view.maker != view.taker
    requires L.ApplyResult(view.state, view.maker, view.taker, FillOrder(market, s, data, view).value.1).Some?
    ensures MarginAmount(market, data.order, data.fill).Some?
    ensures var ledger := view.state;
      var ledger' := L.ApplyResult(ledger, view.maker, view.taker, FillOrder(market, s, data, view).value.1).value;
      var sign := if MakerPays(market, data.order) then 1 else -1;
      var m := MarginAmount(market, data.order, data.fill).value;
      && ledger'.BalanceOf(view.maker).Position() == ledger.BalanceOf(view.maker).Position() + sign * data.fill.amount
      && ledger'.BalanceOf(view.maker).Margin() == ledger.BalanceOf(view.maker).Margin() - sign * m
      && ledger'.BalanceOf(view.taker).Position() == ledger.BalanceOf(view.taker).Position() - sign * data.fill.amount
      && ledger'.BalanceOf(view.taker).Margin() == ledger.BalanceOf(view.taker).Margin() + sign * m
  {
    L.ApplyResultMoves(view.state, view.maker, view.taker, FillOrder(market, s, data, view).value.1);
  }

  /** A fill of a decrease-only order takes exactly its amount off the maker's position and does not flip it. */
  lemma DecreaseOnlyShrinks(market: Market, s: State, data: TradeData, view: L.TraderView)
    requires FillOrder(market, s, data, view).Some? && data.order.isDecreaseOnly
    ensures var b, r := view.state.BalanceOf(view.maker), FillOrder(market, s, data, view).value.1;
      var after := L.MoveBalance(b, r, r.isBuy);
      after.Some? ==>
        && after.value.position == b.position - data.fill.amount
        && (after.value.position > 0 ==> after.value.positionIsPositive == b.positionIsPositive)
  {
  }
}
