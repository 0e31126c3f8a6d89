/** The order book's matching loop: a new order is filled against the best prices first. */
module Matcher {
  import opened Options
  import opened BaseMath
  import opened Sequences
  import opened TradeOperation

  /** An order in the book, with the amount filled so far. */
  datatype ApiOrder = ApiOrder(order: SignedOrder, filledAmount: nat) {
    predicate Fillable() {
      filledAmount < order.amount
    }

    function Available(): nat
      requires Fillable()
    {
      order.amount - filledAmount
    }
  }

  /** The price is acceptable to the taker. */
  predicate Crosses(taker: SignedOrder, maker: SignedOrder) {
    if taker.isBuy then maker.limitPrice <= taker.limitPrice else maker.limitPrice >= taker.limitPrice
  }

  /**
   The check for expired orders has a buffer in seconds as its second parameter. It is given to the list's
   filter as it is, and so gets the order's place in the list as its buffer.
   */
  predicate IsFresh(order: SignedOrder, now: real, place: nat) {
    order.expiration as real > now + place as real
  }

  /**
   The fresh orders of a list of which the first one has the given place. The time is read again for every
   order; `clock` gives what is read for the order at each place.
   */
  function FreshFrom(rows: seq<ApiOrder>, clock: nat -> real, place: nat): seq<ApiOrder>
    decreases |rows|
  {
    if rows == [] then
      []
    else
      var rest := FreshFrom(rows[1..], clock, place + 1);
      if IsFresh(rows[0].order, clock(place), place) then [rows[0]] + rest else rest
  }

  lemma {:induction false} FreshIsIn(rows: seq<ApiOrder>, clock: nat -> real, place: nat, i: nat)
    requires i < |rows| && IsFresh(rows[i].order, clock(place + i), place + i)
    ensures rows[i] in FreshFrom(rows, clock, place)
    decreases |rows|
  {
    if i > 0 {
      FreshIsIn(rows[1..], clock, place + 1, i - 1);
    }
  }

  lemma {:induction false} PlaceOfFresh(rows: seq<ApiOrder>, clock: nat -> real, place: nat, row: ApiOrder)
    returns (i: nat)
    requires row in FreshFrom(rows, clock, place)
    ensures i < |rows| && rows[i] == row && IsFresh(row.order, clock(place + i), place + i)
    decreases |rows|
  {
    if IsFresh(rows[0].order, clock(place), place) && row == rows[0] {
      i := 0;
    } else {
      var k := PlaceOfFresh(rows[1..], clock, place + 1, row);
      i := k + 1;
    }
  }

  lemma {:induction false} FreshNoRepeats(rows: seq<ApiOrder>, clock: nat -> real, place: nat)
    requires NoRepeats(rows)
    ensures NoRepeats(FreshFrom(rows, clock, place))
    decreases |rows|
  {
    if rows != [] {
      FreshNoRepeats(rows[1..], clock, place + 1);
      if rows[0] in FreshFrom(rows[1..], clock, place + 1) {
        var i := PlaceOfFresh(rows[1..], clock, place + 1, rows[0]);
      }
    }
  }

  /** The fillable ones of these orders, at acceptable prices. */
  function Crossing(taker: SignedOrder, candidates: seq<ApiOrder>): seq<ApiOrder> {
    if candidates == [] then
      []
    else
      var rest := Crossing(taker, candidates[1..]);
      if candidates[0].Fillable() && Crosses(taker, candidates[0].order) then [candidates[0]] + rest else rest
  }

  /** The limit prices of two orders on different sides allow a trade. */
  ghost predicate PricesMeet(taker: SignedOrder, maker: SignedOrder) {
    && (taker.isBuy ==> maker.limitPrice <= taker.limitPrice)
    && (!taker.isBuy ==> maker.limitPrice >= taker.limitPrice)
  }

  lemma {:induction false} CrossingOrders(taker: SignedOrder, candidates: seq<ApiOrder>)
    ensures forall o :: o in Crossing(taker, candidates) <==>
      (o in candidates && o.filledAmount < o.order.amount && PricesMeet(taker, o.order))
  {
    if candidates != [] {
      CrossingOrders(taker, candidates[1..]);
      assert forall o :: o in candidates <==> o == candidates[0] || o in candidates[1..];
    }
  }

  lemma {:induction false} CrossingNoRepeats(taker: SignedOrder, candidates: seq<ApiOrder>)
    requires NoRepeats(candidates)
    ensures NoRepeats(Crossing(taker, candidates))
    decreases |candidates|
  {
    if candidates != [] {
      CrossingNoRepeats(taker, candidates[1..]);
      CrossingOrders(taker, candidates[1..]);
    }
  }

  /** Best price first. Orders at the same price may be in any order. */
  predicate BestFirst(takerIsBuy: bool, orders: seq<ApiOrder>) {
    forall i, j :: 0 <= i < j < |orders| ==>
      if takerIsBuy then orders[i].order.limitPrice <= orders[j].order.limitPrice
      else orders[i].order.limitPrice >= orders[j].order.limitPrice
  }

  predicate AllFillable(orders: seq<ApiOrder>) {
    forall i :: 0 <= i < |orders| ==> orders[i].Fillable()
  }

  /** How much the loop takes from each order. */
  function Greedy(orders: seq<ApiOrder>, remaining: nat): (g: seq<nat>)
    requires AllFillable(orders)
    ensures |g| == |orders|
    decreases |orders|
  {
    if orders == [] then
      []
    else
      var traded := Min(remaining, orders[0].Available());
      [traded] + Greedy(orders[1..], remaining - traded)
  }

  /** A way of filling the orders: no order gives more than it has left. */
  predicate IsAllocation(orders: seq<ApiOrder>, amounts: seq<nat>)
    requires AllFillable(orders)
  {
    |amounts| == |orders| && forall i :: 0 <= i < |orders| ==> amounts[i] <= orders[i].Available()
  }

  function Sum(amounts: seq<nat>): nat {
    if amounts == [] then 0 else amounts[0] + Sum(amounts[1..])
  }

  function Cost(amount: int, price: real): real {
    amount as real * price
  }

  function Volume(orders: seq<ApiOrder>, amounts: seq<nat>): real
    requires |amounts| == |orders|
  {
    if orders == [] then 0.0
    else Cost(amounts[0], orders[0].order.limitPrice) + Volume(orders[1..], amounts[1..])
  }

  /** The trades handed on: for each order used, one fill of the maker's order and one of the taker's. */
  function MatchedTrades(
    ordersAddress: string, operator: string, taker: SignedOrder, orders: seq<ApiOrder>, remaining: nat)
    : seq<TempTradeArg>
    requires AllFillable(orders)
    decreases |orders|
  {
    if orders == [] || remaining == 0 then
      []
    else
      var maker := orders[0].order;
      var traded := Min(remaining, orders[0].Available());
      MatchedPair(ordersAddress, operator, taker, maker, traded)
      + MatchedTrades(ordersAddress, operator, taker, orders[1..], remaining - traded)
  }

  function MatchedPair(ordersAddress: string, operator: string, taker: SignedOrder, maker: SignedOrder, traded: nat)
    : seq<TempTradeArg>
  {
    [FillTrade(ordersAddress, operator, maker, traded, maker.limitPrice, maker.limitFee),
     FillTrade(ordersAddress, operator, taker, traded, maker.limitPrice, maker.limitFee)]
  }

  /** How far the transaction got: whether it was sent, and whether it was executed without a revert. */
  datatype Outcome = NotSent | Reverted | Succeeded

  /**
   `rows` are the stored orders of the other side as the database returns them, and `apiOrders` holds the
   crossing ones among them after the library's sort. The matched trades are committed as one batch; unless
   its transaction succeeds, the method fails.
   */
  method FulfillOrder(
    taker: SignedOrder, operator: string, ordersAddress: string, rows: seq<ApiOrder>, clock: nat -> real,
    apiOrders: array<ApiOrder>, outcome: Outcome)
    returns (
      ok: bool, filledAmount: nat, isFulfilled: bool, totalVolume: real,
      call: Option<(seq<string>, seq<TradeArg>)>)
    requires SortedCrossing(taker, rows, clock, apiOrders[..])
    modifies apiOrders
    ensures AllFillable(old(apiOrders[..]))
    ensures var g := Greedy(old(apiOrders[..]), taker.amount);
      && filledAmount == Sum(g)
      && isFulfilled == (Sum(g) == taker.amount)
      && totalVolume == Volume(old(apiOrders[..]), g)
      && forall i :: 0 <= i < apiOrders.Length ==> apiOrders[i] == Filled(old(apiOrders[i]), g[i])
    ensures var matched := apiOrders.Length > 0 && taker.amount > 0;
      && ok == (!matched || outcome.Succeeded?)
      && call.Some? == (matched && !outcome.NotSent?)
    ensures call.Some? ==>
      var trades := MatchedTrades(ordersAddress, operator, taker, old(apiOrders[..]), taker.amount);
      Builds(trades, call.value.0, call.value.1)
  {
    MatchedOrders(taker, rows, clock, apiOrders[..]);
    ghost var orders := apiOrders[..];
    ok, filledAmount, isFulfilled, totalVolume, call := true, 0, taker.amount == 0, 0.0, None;
    if apiOrders.Length == 0 || taker.amount == 0 {
      NothingIsMatched(orders, taker.amount);
      return;
    }
    var remaining: nat;
    remaining, totalVolume, call := FillAndCommit(taker, operator, ordersAddress, apiOrders, !outcome.NotSent?);
    filledAmount := taker.amount - remaining;
    isFulfilled := remaining == 0;
    ok := outcome.Succeeded?;
  }

  /** All fills go into one operation. */
  method FillAndCommit(
    taker: SignedOrder, operator: string, ordersAddress: string, apiOrders: array<ApiOrder>, sent: bool)
    returns (remaining: nat, totalVolume: real, call: Option<(seq<string>, seq<TradeArg>)>)
    requires AllFillable(apiOrders[..]) && apiOrders.Length > 0 && taker.amount > 0
    modifies apiOrders
    ensures var g := Greedy(old(apiOrders[..]), taker.amount);
      && remaining == taker.amount - Sum(g)
      && totalVolume == Volume(old(apiOrders[..]), g)
      && forall i :: 0 <= i < apiOrders.Length ==> apiOrders[i] == Filled(old(apiOrders[i]), g[i])
    ensures call.Some? == sent
    ensures call.Some? ==>
      var trades := MatchedTrades(ordersAddress, operator, taker, old(apiOrders[..]), taker.amount);
      Builds(trades, call.value.0, call.value.1)
  {
    var operation := new Operation(ordersAddress);
    remaining, totalVolume := FillLoop(taker, operator, apiOrders, operation);
    call := operation.Commit(sent);
  }

  lemma NothingIsMatched(orders: seq<ApiOrder>, amount: nat)
    requires AllFillable(orders) && (orders == [] || amount == 0)
    ensures var g := Greedy(orders, amount);
      && (forall i :: 0 <= i < |g| ==> g[i] == 0)
      && Sum(g) == 0 && Volume(orders, g) == 0.0
  {
    if orders != [] {
      NothingRemains(orders);
    }
  }

  /** Any arrangement of the crossing orders by price: the library's comparator leaves ties open. */
  ghost predicate SortedCrossing(taker: SignedOrder, rows: seq<ApiOrder>, clock: nat -> real, orders: seq<ApiOrder>) {
    && multiset(orders) == multiset(Crossing(taker, FreshFrom(rows, clock, 0)))
    && BestFirst(taker.isBuy, orders)
  }

  /** The price of `a` is at least as good for the taker as that of `b`. */
  ghost predicate NoWorsePrice(takerIsBuy: bool, a: ApiOrder, b: ApiOrder) {
    if takerIsBuy then a.order.limitPrice <= b.order.limitPrice else a.order.limitPrice >= b.order.limitPrice
  }

  /** An order finds its place in a list that is in order. */
  lemma {:induction false} PlaceExists(takerIsBuy: bool, rest: seq<ApiOrder>, o: ApiOrder)
    returns (sorted: seq<ApiOrder>)
    requires BestFirst(takerIsBuy, rest)
    ensures multiset(sorted) == multiset(rest) + multiset{o} && BestFirst(takerIsBuy, sorted)
    decreases |rest|
  {
    if rest == [] || NoWorsePrice(takerIsBuy, o, rest[0]) {
      sorted := [o] + rest;
      InFront(takerIsBuy, o, rest);
    } else {
      var later := PlaceExists(takerIsBuy, rest[1..], o);
      sorted := [rest[0]] + later;
      assert rest == [rest[0]] + rest[1..];
      forall k | 0 <= k < |later| ensures NoWorsePrice(takerIsBuy, rest[0], later[k]) {
        assert later[k] in multiset(later);
        assert later[k] == o || later[k] in rest[1..];
      }
      InFront(takerIsBuy, rest[0], later);
    }
  }

  lemma InFront(takerIsBuy: bool, o: ApiOrder, rest: seq<ApiOrder>)
    requires BestFirst(takerIsBuy, rest)
    requires rest == [] || NoWorsePrice(takerIsBuy, o, rest[0])
    ensures BestFirst(takerIsBuy, [o] + rest)
  {
  }

  /** Any list can be put in order, with equal prices too, so the library's sort always has a result. */
  lemma {:induction false} BestFirstExists(takerIsBuy: bool, orders: seq<ApiOrder>) returns (sorted: seq<ApiOrder>)
    ensures multiset(sorted) == multiset(orders) && BestFirst(takerIsBuy, sorted)
    decreases |orders|
  {
    sorted := [];
    if orders != [] {
      var rest := BestFirstExists(takerIsBuy, orders[1..]);
      sorted := PlaceExists(takerIsBuy, rest, orders[0]);
      assert orders == [orders[0]] + orders[1..];
    }
  }

  /** The order at this place of the list can be matched, and expires late enough for the place. */
  ghost predicate IsCandidate(taker: SignedOrder, row: ApiOrder, now: real, place: nat) {
    && row.order.expiration as real > now + place as real
    && row.filledAmount < row.order.amount
    && PricesMeet(taker, row.order)
  }

  /** The sorted list consists of exactly the rows that pass the filters. */
  lemma MatchedOrders(taker: SignedOrder, rows: seq<ApiOrder>, clock: nat -> real, orders: seq<ApiOrder>)
    requires SortedCrossing(taker, rows, clock, orders)
    ensures AllFillable(orders)
    ensures forall i :: 0 <= i < |orders| ==> PricesMeet(taker, orders[i].order)
    ensures forall o :: o in orders <==>
      exists i :: 0 <= i < |rows| && rows[i] == o && IsCandidate(taker, o, clock(i), i)
  {
    var candidates := FreshFrom(rows, clock, 0);
    CrossingOrders(taker, candidates);
    SameElements(orders, Crossing(taker, candidates));
    forall o
      ensures o in orders <==> exists i :: 0 <= i < |rows| && rows[i] == o && IsCandidate(taker, o, clock(i), i)
    {
      if o in orders {
        var i := PlaceOfFresh(rows, clock, 0, o);
        assert IsCandidate(taker, rows[i], clock(i), i);
      }
      if i :| 0 <= i < |rows| && rows[i] == o && IsCandidate(taker, o, clock(i), i) {
        FreshIsIn(rows, clock, 0, i);
      }
    }
    assert forall i :: 0 <= i < |orders| ==> orders[i] in orders;
  }

  /** Different orders in the list stay different orders when it is filtered and sorted. */
  lemma MatchedAreDifferent(taker: SignedOrder, rows: seq<ApiOrder>, clock: nat -> real, orders: seq<ApiOrder>)
    requires SortedCrossing(taker, rows, clock, orders) && DifferentOrders(rows)
    ensures DifferentOrders(orders)
  {
    FreshNoRepeats(rows, clock, 0);
    CrossingNoRepeats(taker, FreshFrom(rows, clock, 0));
    NoRepeatsRearranged(Crossing(taker, FreshFrom(rows, clock, 0)), orders);
    MatchedOrders(taker, rows, clock, orders);
    forall i, j | 0 <= i < j < |orders| ensures orders[i].order != orders[j].order {
      assert orders[i] in orders && orders[j] in orders;
    }
  }

  ghost predicate DifferentOrders(rows: seq<ApiOrder>) {
    forall i, j :: 0 <= i < j < |rows| ==> rows[i].order != rows[j].order
  }

  method FillLoop(taker: SignedOrder, operator: string, apiOrders: array<ApiOrder>, operation: Operation)
    returns (remaining: nat, totalVolume: real)
    requires AllFillable(apiOrders[..])
    requires operation.trades == [] && !operation.committed
    modifies apiOrders, operation`trades
    ensures var g := Greedy(old(apiOrders[..]), taker.amount);
      && remaining == taker.amount - Sum(g)
      && totalVolume == Volume(old(apiOrders[..]), g)
      && forall i :: 0 <= i < apiOrders.Length ==> apiOrders[i] == Filled(old(apiOrders[i]), g[i])
    ensures operation.trades ==
      MatchedTrades(operation.ordersAddress, operator, taker, old(apiOrders[..]), taker.amount)
  {
    ghost var orders := apiOrders[..];
    ghost var g := Greedy(orders, taker.amount);
    ghost var address := operation.ordersAddress;
    remaining := taker.amount;
    totalVolume := 0.0;
    var i := 0;
    while i < apiOrders.Length && remaining > 0
      invariant 0 <= i <= apiOrders.Length == |orders|
      invariant Progress(address, operator, taker, orders, i, remaining, totalVolume, operation.trades)
      invariant forall k :: 0 <= k < i ==> apiOrders[k] == Filled(orders[k], g[k])
      invariant forall k :: i <= k < apiOrders.Length ==> apiOrders[k] == orders[k]
    {
      ghost var trades := operation.trades;
      var tradedAmount := FillOne(taker, operator, apiOrders, i, remaining, operation);
      ProgressStep(address, operator, taker, orders, i, remaining, totalVolume, trades);
      totalVolume := totalVolume + Cost(tradedAmount, apiOrders[i].order.limitPrice);
      remaining := remaining - tradedAmount;
      i := i + 1;
    }
    ProgressEnds(address, operator, taker, orders, i, remaining, totalVolume, operation.trades);
  }

  /** How far the loop has come, compared with what it is to compute in the end. */
  ghost predicate Progress(
    address: string, operator: string, taker: SignedOrder, orders: seq<ApiOrder>, i: nat, remaining: nat,
    totalVolume: real, trades: seq<TempTradeArg>)
    requires AllFillable(orders) && i <= |orders|
  {
    && FillProgress(taker.amount, orders, i, remaining, totalVolume)
    && trades + MatchedTrades(address, operator, taker, orders[i..], remaining)
         == MatchedTrades(address, operator, taker, orders, taker.amount)
  }

  ghost predicate FillProgress(amount: nat, orders: seq<ApiOrder>, i: nat, remaining: nat, totalVolume: real)
    requires AllFillable(orders) && i <= |orders|
  {
    var g := Greedy(orders, amount);
    && g[i..] == Greedy(orders[i..], remaining)
    && amount - remaining + Sum(g[i..]) == Sum(g)
    && totalVolume + Volume(orders[i..], g[i..]) == Volume(orders, g)
  }

  lemma FillStep(amount: nat, orders: seq<ApiOrder>, i: nat, remaining: nat, totalVolume: real)
    requires AllFillable(orders) && i < |orders|
    requires FillProgress(amount, orders, i, remaining, totalVolume)
    ensures var traded := Min(remaining, orders[i].Available());
      && Greedy(orders, amount)[i] == traded
      && FillProgress(amount, orders, i + 1, remaining - traded,
           totalVolume + Cost(traded, orders[i].order.limitPrice))
  {
  }

  lemma ProgressStep(
    address: string, operator: string, taker: SignedOrder, orders: seq<ApiOrder>, i: nat, remaining: nat,
    totalVolume: real, trades: seq<TempTradeArg>)
    requires AllFillable(orders) && i < |orders| && remaining > 0
    requires Progress(address, operator, taker, orders, i, remaining, totalVolume, trades)
    ensures var traded := Min(remaining, orders[i].Available());
      && Greedy(orders, taker.amount)[i] == traded
      && Progress(address, operator, taker, orders, i + 1, remaining - traded,
           totalVolume + Cost(traded, orders[i].order.limitPrice),
           trades + MatchedPair(address, operator, taker, orders[i].order, traded))
  {
    var traded: nat := Min(remaining, orders[i].Available());
    FillStep(taker.amount, orders, i, remaining, totalVolume);
    TradesStep(address, operator, taker, orders, i, remaining, trades);
  }

  lemma TradesStep(
    address: string, operator: string, taker: SignedOrder, orders: seq<ApiOrder>, i: nat, remaining: nat,
    trades: seq<TempTradeArg>)
    requires AllFillable(orders) && i < |orders| && remaining > 0
    ensures var traded := Min(remaining, orders[i].Available());
      trades + MatchedTrades(address, operator, taker, orders[i..], remaining)
        == trades + MatchedPair(address, operator, taker, orders[i].order, traded)
           + MatchedTrades(address, operator, taker, orders[i + 1..], remaining - traded)
  {
  }

  lemma ProgressEnds(
    address: string, operator: string, taker: SignedOrder, orders: seq<ApiOrder>, i: nat, remaining: nat,
    totalVolume: real, trades: seq<TempTradeArg>)
    requires AllFillable(orders) && i <= |orders| && (i == |orders| || remaining == 0)
    requires Progress(address, operator, taker, orders, i, remaining, totalVolume, trades)
    ensures var g := Greedy(orders, taker.amount);
      && remaining == taker.amount - Sum(g)
      && totalVolume == Volume(orders, g)
      && trades == MatchedTrades(address, operator, taker, orders, taker.amount)
      && forall k :: i <= k < |g| ==> g[k] == 0
  {
    var g := Greedy(orders, taker.amount);
    GreedyRestIsZero(orders[i..], remaining);
    if remaining == 0 {
      NothingRemains(orders[i..]);
      assert forall k :: i <= k < |g| ==> g[k] == g[i..][k - i];
    }
    assert trades + [] == trades;
  }

  function Filled(o: ApiOrder, amount: nat): ApiOrder {
    o.(filledAmount := o.filledAmount + amount)
  }

  /** One iteration: both fills are handed to the operation, and the maker's order is updated. */
  method FillOne(
    taker: SignedOrder, operator: string, apiOrders: array<ApiOrder>, i: nat, remaining: nat, operation: Operation)
    returns (tradedAmount: nat)
    requires i < apiOrders.Length && apiOrders[i].Fillable() && !operation.committed
    modifies apiOrders, operation`trades
    ensures tradedAmount == Min(remaining, old(apiOrders[i]).Available())
    ensures apiOrders[..] == old(apiOrders[..])[i := Filled(old(apiOrders[i]), tradedAmount)]
    ensures operation.trades == old(operation.trades)
      + MatchedPair(operation.ordersAddress, operator, taker, old(apiOrders[i].order), tradedAmount)
  {
    var maker := apiOrders[i].order;
    tradedAmount := Min(remaining, apiOrders[i].Available());
    var _ := operation.FillSignedOrder(operator, maker, tradedAmount, maker.limitPrice, maker.limitFee);
    var _ := operation.FillSignedOrder(operator, taker, tradedAmount, maker.limitPrice, maker.limitFee);
    apiOrders[i] := apiOrders[i].(filledAmount := apiOrders[i].filledAmount + tradedAmount);
  }

  lemma {:induction false} NothingRemains(orders: seq<ApiOrder>)
    requires AllFillable(orders)
    ensures var g := Greedy(orders, 0);
      (forall i :: 0 <= i < |g| ==> g[i] == 0) && Sum(g) == 0 && Volume(orders, g) == 0.0
    decreases |orders|
  {
    if orders != [] {
      NothingRemains(orders[1..]);
    }
  }

  // ---------- What the loop achieves ----------

  function TotalAvailable(orders: seq<ApiOrder>): nat
    requires AllFillable(orders)
    decreases |orders|
  {
    if orders == [] then 0 else orders[0].Available() + TotalAvailable(orders[1..])
  }

  /** The new order gets all that it asks for, or all that there is. */
  lemma {:induction false} GreedyTotal(orders: seq<ApiOrder>, amount: nat)
    requires AllFillable(orders)
    ensures Sum(Greedy(orders, amount)) == Min(amount, TotalAvailable(orders))
    decreases |orders|
  {
    if orders != [] {
      GreedyTotal(orders[1..], amount - Min(amount, orders[0].Available()));
    }
  }

  /** No maker is overfilled, something is traded if anything can be, and nothing is left over unless all is used up. */
  lemma {:induction false} GreedyFills(orders: seq<ApiOrder>, remaining: nat)
    requires AllFillable(orders)
    ensures var g := Greedy(orders, remaining);
      && IsAllocation(orders, g)
      && Sum(g) <= remaining
      && (orders != [] && remaining > 0 ==> Sum(g) > 0)
      && (Sum(g) < remaining ==> forall i :: 0 <= i < |orders| ==> g[i] == orders[i].Available())
    decreases |orders|
  {
    if orders != [] {
      var traded := Min(remaining, orders[0].Available());
      GreedyFills(orders[1..], remaining - traded);
      var g, rest := Greedy(orders, remaining), Greedy(orders[1..], remaining - traded);
      assert g[1..] == rest;
      assert forall i :: 1 <= i < |orders| ==> g[i] == rest[i - 1] && orders[i] == orders[1..][i - 1];
    }
  }

  /** The price at which the loop stops, or the last price. */
  function Marginal(orders: seq<ApiOrder>, remaining: nat): real
    requires AllFillable(orders)
    decreases |orders|
  {
    if orders == [] then 0.0
    else if remaining < orders[0].Available() || |orders| == 1 then orders[0].order.limitPrice
    else Marginal(orders[1..], remaining - orders[0].Available())
  }

  lemma {:induction false} MarginalIsLater(takerIsBuy: bool, orders: seq<ApiOrder>, remaining: nat)
    requires AllFillable(orders) && BestFirst(takerIsBuy, orders) && orders != []
    ensures if takerIsBuy then orders[0].order.limitPrice <= Marginal(orders, remaining)
            else orders[0].order.limitPrice >= Marginal(orders, remaining)
    decreases |orders|
  {
    if remaining >= orders[0].Available() && |orders| > 1 {
      assert orders[0].order.limitPrice == orders[0].order.limitPrice && orders[1] == orders[1..][0];
      MarginalIsLater(takerIsBuy, orders[1..], remaining - orders[0].Available());
    }
  }

  /** Everything still to come is at the marginal price or worse. */
  lemma {:induction false} RestCostsMore(takerIsBuy: bool, orders: seq<ApiOrder>, amounts: seq<nat>, base: real)
    requires |amounts| == |orders|
    requires forall i :: 0 <= i < |orders| ==>
      if takerIsBuy then orders[i].order.limitPrice >= base else orders[i].order.limitPrice <= base
    ensures if takerIsBuy then Volume(orders, amounts) >= Cost(Sum(amounts), base)
            else Volume(orders, amounts) <= Cost(Sum(amounts), base)
    decreases |orders|
  {
    if orders != [] {
      RestCostsMore(takerIsBuy, orders[1..], amounts[1..], base);
      CostBound(takerIsBuy, amounts[0], Sum(amounts[1..]), orders[0].order.limitPrice, base);
    }
  }

  lemma CostBound(takerIsBuy: bool, amount: nat, rest: nat, price: real, base: real)
    requires if takerIsBuy then price >= base else price <= base
    ensures if takerIsBuy then Cost(amount, price) + Cost(rest, base) >= Cost(amount + rest, base)
            else Cost(amount, price) + Cost(rest, base) <= Cost(amount + rest, base)
  {
  }

  /** The loop's choice of the first order against another one, with the rest compared already. */
  lemma ExchangeStep(x: real, y: real, p: real, m: real, rest: real, restChosen: real, shift: real)
    requires (x <= y && p <= m) || p == m
    requires rest - restChosen >= shift * m
    ensures (x * p + rest) - (y * p + restChosen) >= ((x - y) + shift) * m
  {
  }

  lemma ExchangeStepForSeller(x: real, y: real, p: real, m: real, rest: real, restChosen: real, shift: real)
    requires (x <= y && p >= m) || p == m
    requires rest - restChosen <= shift * m
    ensures (x * p + rest) - (y * p + restChosen) <= ((x - y) + shift) * m
  {
  }

  /** `other` costs at least the marginal price more for each unit it takes more than the loop. */
  ghost predicate CostsAtLeastMargin(
    takerIsBuy: bool, orders: seq<ApiOrder>, chosen: seq<nat>, other: seq<nat>, margin: real)
    requires |chosen| == |other| == |orders|
  {
    var shift := Cost(Sum(other) - Sum(chosen), margin);
    if takerIsBuy then Volume(orders, other) - Volume(orders, chosen) >= shift
    else Volume(orders, other) - Volume(orders, chosen) <= shift
  }

  lemma ExchangeExtends(takerIsBuy: bool, orders: seq<ApiOrder>, g: seq<nat>, other: seq<nat>, m: real)
    requires orders != [] && |g| == |other| == |orders|
    requires other[0] <= g[0] || orders[0].order.limitPrice == m
    requires if takerIsBuy then orders[0].order.limitPrice <= m else orders[0].order.limitPrice >= m
    requires CostsAtLeastMargin(takerIsBuy, orders[1..], g[1..], other[1..], m)
    ensures CostsAtLeastMargin(takerIsBuy, orders, g, other, m)
  {
    var p, x, y := orders[0].order.limitPrice, other[0] as real, g[0] as real;
    var v, w := Volume(orders[1..], other[1..]), Volume(orders[1..], g[1..]);
    var shift := (Sum(other[1..]) - Sum(g[1..])) as real;
    if takerIsBuy {
      ExchangeStep(x, y, p, m, v, w, shift);
    } else {
      ExchangeStepForSeller(x, y, p, m, v, w, shift);
    }
    assert (Sum(other) - Sum(g)) as real == (x - y) + shift;
  }

  /** When the loop stops at the first order, everything else is at its price or worse. */
  lemma ExchangeStops(takerIsBuy: bool, orders: seq<ApiOrder>, remaining: nat, other: seq<nat>)
    requires AllFillable(orders) && BestFirst(takerIsBuy, orders) && IsAllocation(orders, other)
    requires orders != [] && (remaining < orders[0].Available() || |orders| == 1)
    ensures CostsAtLeastMargin(
      takerIsBuy, orders, Greedy(orders, remaining), other, orders[0].order.limitPrice)
  {
    var p, chosen: nat := orders[0].order.limitPrice, Min(remaining, orders[0].Available());
    var rest := orders[1..];
    assert forall i :: 0 <= i < |rest| ==> rest[i] == orders[i + 1];
    RestCostsMore(takerIsBuy, rest, other[1..], p);
    GreedyRestIsZero(rest, remaining - chosen);
    var g := Greedy(orders, remaining);
    assert g[1..] == Greedy(rest, remaining - chosen);
    assert CostsAtLeastMargin(takerIsBuy, rest, g[1..], other[1..], p);
    ExchangeExtends(takerIsBuy, orders, g, other, p);
  }

  /** The exchange argument: moving amounts away from the loop's choice costs at least the marginal price. */
  lemma {:induction false} ExchangeAtMargin(
    takerIsBuy: bool, orders: seq<ApiOrder>, remaining: nat, other: seq<nat>)
    requires AllFillable(orders) && BestFirst(takerIsBuy, orders) && IsAllocation(orders, other)
    requires orders != []
    ensures CostsAtLeastMargin(
      takerIsBuy, orders, Greedy(orders, remaining), other, Marginal(orders, remaining))
    decreases |orders|
  {
    var available, rest := orders[0].Available(), orders[1..];
    if remaining < available || |orders| == 1 {
      ExchangeStops(takerIsBuy, orders, remaining, other);
    } else {
      assert forall i :: 0 <= i < |rest| ==> rest[i] == orders[i + 1] && other[1..][i] == other[i + 1];
      ExchangeAtMargin(takerIsBuy, rest, remaining - available, other[1..]);
      MarginalIsLater(takerIsBuy, orders, remaining);
      assert Greedy(orders, remaining)[1..] == Greedy(rest, remaining - available);
      ExchangeExtends(takerIsBuy, orders, Greedy(orders, remaining), other, Marginal(orders, remaining));
    }
  }

  lemma GreedyRestIsZero(orders: seq<ApiOrder>, remaining: nat)
    requires AllFillable(orders) && (remaining == 0 || orders == [])
    ensures Sum(Greedy(orders, remaining)) == 0 && Volume(orders, Greedy(orders, remaining)) == 0.0
  {
  }

  /**
   Among all ways of filling the same total from the crossing orders, the loop's costs a buyer least and
   brings a seller most.
   */
  lemma BestExecution(takerIsBuy: bool, orders: seq<ApiOrder>, amount: nat, other: seq<nat>)
    requires AllFillable(orders) && BestFirst(takerIsBuy, orders)
    requires IsAllocation(orders, other) && Sum(other) == Sum(Greedy(orders, amount))
    ensures if takerIsBuy then Volume(orders, Greedy(orders, amount)) <= Volume(orders, other)
            else Volume(orders, Greedy(orders, amount)) >= Volume(orders, other)
  {
    if orders != [] {
      ExchangeAtMargin(takerIsBuy, orders, amount, other);
    }
  }
}
