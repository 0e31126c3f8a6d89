/**
 The stored book beside the order contract. A batch is followed through the order contract's own state, and
 what the book records as filled is compared with what the contract has recorded.
 */
module BookOnChain {
  import opened Options
  import opened BaseMath
  import opened Ledger
  import opened CallData
  import opened Matcher
  import B = OrderBook
  import Orders
  import T = TradeOperation

  // ---------- A batch of fills, with the order contract's state ----------

  /** The order contract's state after the fill. */
  function AfterFill(
    s: State, chain: Orders.State, env: Env, sender: Address, accounts: seq<Address>, arg: T.TradeArg,
    flags: set<nat>): Orders.State
    requires arg.data.FillPayload? && HasAddresses(arg.data.order)
    requires arg.makerIndex < |accounts| && arg.takerIndex < |accounts|
  {
    var view := TraderView(
      s, env.now, sender, accounts[arg.makerIndex], accounts[arg.takerIndex], env.price, flags);
    match Orders.FillOrder(Orders.Linear, chain, EncodeTradeData(arg.data), view)
    case Some((chain', _)) => chain'
    case None => chain
  }

  /** The loop over the trades, each of them on the order contract as the trades before it left it. */
  function RunFills(
    s: State, chain: Orders.State, env: Env, sender: Address, accounts: seq<Address>, args: seq<T.TradeArg>,
    flags: set<nat>): Option<(State, Orders.State)>
    requires AreFills(args)
    decreases |args|
  {
    if args == [] then
      Some((s, chain))
    else
      var (s', flags') :- RunTrade(s, env, sender, accounts, ToChain(args[0], chain), flags);
      var chain' := AfterFill(s, chain, env, sender, accounts, args[0], flags);
      RunFills(s', chain', env, sender, accounts, args[1..], flags')
  }

  function LedgerOf(r: Option<(State, Orders.State)>): Option<State> {
    match r
    case Some((s, _)) => Some(s)
    case None => None
  }

  /** This is the ledger's own loop, with the states in which the order contract is at each of the trades. */
  lemma {:induction false} FillsAreTrades(
    s: State, chain: Orders.State, env: Env, sender: Address, accounts: seq<Address>, args: seq<T.TradeArg>,
    flags: set<nat>) returns (states: seq<Orders.State>)
    requires AreFills(args)
    ensures |states| == |args|
    ensures RunTrades(s, env, sender, accounts, AllToChain(args, states), flags)
      == LedgerOf(RunFills(s, chain, env, sender, accounts, args, flags))
    decreases |args|
  {
    states := seq(|args|, i => chain);
    if args != [] {
      var first := RunTrade(s, env, sender, accounts, ToChain(args[0], chain), flags);
      if first.Some? {
        var chain' := AfterFill(s, chain, env, sender, accounts, args[0], flags);
        var rest := FillsAreTrades(first.value.0, chain', env, sender, accounts, args[1..], first.value.1);
        states := [chain] + rest;
        ChainUnfolds(args, chain, rest);
      }
    }
  }

  lemma ChainUnfolds(args: seq<T.TradeArg>, first: Orders.State, rest: seq<Orders.State>)
    requires AreFills(args) && |args| == |rest| + 1
    ensures AllToChain(args, [first] + rest)[0] == ToChain(args[0], first)
    ensures AllToChain(args, [first] + rest)[1..] == AllToChain(args[1..], rest)
  {
  }

  /** The whole call, with the order contract's state after it. */
  function TradeFills(
    s: State, chain: Orders.State, env: Env, sender: Address, accounts: seq<Address>, args: seq<T.TradeArg>)
    : Option<(State, Orders.State)>
    requires AreFills(args)
  {
    var _ :- Require(!s.finalSettlementEnabled);
    var _ :- Require(VerifyAccounts(accounts));
    var (s1, context) :- LoadContext(s, env);
    var settled :- SettleAccounts(s1, context.index, accounts);
    var (traded, chain') :- RunFills(settled, chain, env, sender, accounts, args, {});
    var _ :- Require(AccountsAllowed(settled, traded, accounts, context.price, context.minCollateral));
    Some((traded, chain'))
  }

  /** The ledger accepts the call exactly if this does, and is then in the same state. */
  lemma TradeFillsIsTrade(
    s: State, chain: Orders.State, env: Env, sender: Address, accounts: seq<Address>, args: seq<T.TradeArg>)
    returns (states: seq<Orders.State>)
    requires AreFills(args)
    ensures |states| == |args|
    ensures Trade(s, env, sender, accounts, AllToChain(args, states))
      == LedgerOf(TradeFills(s, chain, env, sender, accounts, args))
  {
    states := seq(|args|, i => chain);
    if LoadContext(s, env).Some? {
      var (s1, context) := LoadContext(s, env).value;
      var settled := SettleAccounts(s1, context.index, accounts);
      if settled.Some? {
        states := FillsAreTrades(settled.value, chain, env, sender, accounts, args, {});
      }
    }
  }

  // ---------- What the fills add up to ----------

  /** The amounts of the fills of some orders. */
  function FilledIn(fills: seq<T.Payload>, some: T.SignedOrder -> bool): nat
    decreases |fills|
  {
    if fills == [] then
      0
    else
      var here := if fills[0].FillPayload? && some(fills[0].order) then fills[0].amount else 0;
      here + FilledIn(fills[1..], some)
  }

  function ArgFills(args: seq<T.TradeArg>): seq<T.Payload> {
    seq(|args|, i requires 0 <= i < |args| => args[i].data)
  }

  function FillsOf(trades: seq<T.TempTradeArg>): seq<T.Payload> {
    seq(|trades|, i requires 0 <= i < |trades| => trades[i].data)
  }

  /** The orders that the contract knows as `x`. */
  function KnownAs(x: Orders.Order): T.SignedOrder -> bool {
    (o: T.SignedOrder) => HasAddresses(o) && EncodeOrder(o) == x
  }

  lemma FillIsCounted(
    s: State, chain: Orders.State, env: Env, sender: Address, accounts: seq<Address>, arg: T.TradeArg,
    flags: set<nat>, x: Orders.Order)
    requires arg.data.FillPayload? && HasAddresses(arg.data.order) && T.IsAddressText(arg.trader)
    requires RunTrade(s, env, sender, accounts, ToChain(arg, chain), flags).Some?
    ensures AfterFill(s, chain, env, sender, accounts, arg, flags).FilledAmount(x)
      == chain.FilledAmount(x) + if KnownAs(x)(arg.data.order) then arg.data.amount else 0
  {
  }

  /** The contract's record of an order grows by exactly the fills of it. */
  lemma {:induction false} FillsAreCounted(
    s: State, chain: Orders.State, env: Env, sender: Address, accounts: seq<Address>, args: seq<T.TradeArg>,
    flags: set<nat>, x: Orders.Order)
    requires AreFills(args)
    requires RunFills(s, chain, env, sender, accounts, args, flags).Some?
    ensures RunFills(s, chain, env, sender, accounts, args, flags).value.1.FilledAmount(x)
      == chain.FilledAmount(x) + FilledIn(ArgFills(args), KnownAs(x))
    decreases |args|
  {
    if args != [] {
      var (s', flags') := RunTrade(s, env, sender, accounts, ToChain(args[0], chain), flags).value;
      var chain' := AfterFill(s, chain, env, sender, accounts, args[0], flags);
      FillIsCounted(s, chain, env, sender, accounts, args[0], flags, x);
      FillsAreCounted(s', chain', env, sender, accounts, args[1..], flags', x);
      assert ArgFills(args)[1..] == ArgFills(args[1..]);
    }
  }

  /** What the allocation gives to some orders. */
  function AllocatedTo(orders: seq<ApiOrder>, g: seq<nat>, some: T.SignedOrder -> bool): nat
    requires |g| == |orders|
    decreases |orders|
  {
    if orders == [] then 0
    else (if some(orders[0].order) then g[0] else 0) + AllocatedTo(orders[1..], g[1..], some)
  }

  lemma {:induction false} AllocatedToNone(orders: seq<ApiOrder>, g: seq<nat>, some: T.SignedOrder -> bool)
    requires |g| == |orders|
    requires forall i :: 0 <= i < |orders| ==> !some(orders[i].order)
    ensures AllocatedTo(orders, g, some) == 0
    decreases |orders|
  {
    if orders != [] {
      AllocatedToNone(orders[1..], g[1..], some);
    }
  }

  lemma {:induction false} AllocatedToOne(
    orders: seq<ApiOrder>, g: seq<nat>, some: T.SignedOrder -> bool, k: nat)
    requires |g| == |orders| && k < |orders|
    requires forall i :: 0 <= i < |orders| ==> (some(orders[i].order) <==> i == k)
    ensures AllocatedTo(orders, g, some) == g[k]
    decreases |orders|
  {
    if k > 0 {
      AllocatedToOne(orders[1..], g[1..], some, k - 1);
    } else {
      AllocatedToNone(orders[1..], g[1..], some);
    }
  }

  /** The trades of a match fill each matched order by its allocation, and the new one by their sum. */
  lemma {:induction false} MatchedFills(
    ordersAddress: string, operator: string, taker: T.SignedOrder, orders: seq<ApiOrder>, remaining: nat,
    some: T.SignedOrder -> bool)
    requires AllFillable(orders)
    ensures var g := Greedy(orders, remaining);
      FilledIn(FillsOf(MatchedTrades(ordersAddress, operator, taker, orders, remaining)), some)
        == AllocatedTo(orders, g, some) + if some(taker) then Sum(g) else 0
    decreases |orders|
  {
    var trades := MatchedTrades(ordersAddress, operator, taker, orders, remaining);
    if orders != [] && remaining > 0 {
      var maker, traded: nat := orders[0].order, Min(remaining, orders[0].Available());
      var rest := MatchedTrades(ordersAddress, operator, taker, orders[1..], remaining - traded);
      MatchedFills(ordersAddress, operator, taker, orders[1..], remaining - traded, some);
      var first := T.FillPayload(maker, traded, maker.limitPrice, maker.limitFee);
      var second := T.FillPayload(taker, traded, maker.limitPrice, maker.limitFee);
      assert FillsOf(trades) == [first, second] + FillsOf(rest);
      FilledInPair(first, second, FillsOf(rest), some);
    } else {
      NothingIsMatched(orders, remaining);
      NothingAllocated(orders, Greedy(orders, remaining), some);
    }
  }

  lemma FilledInPair(first: T.Payload, second: T.Payload, rest: seq<T.Payload>, some: T.SignedOrder -> bool)
    requires first.FillPayload? && second.FillPayload?
    ensures FilledIn([first, second] + rest, some)
      == (if some(first.order) then first.amount else 0) + (if some(second.order) then second.amount else 0)
         + FilledIn(rest, some)
  {
    var fills := [first, second] + rest;
    assert fills[1..] == [second] + rest && fills[1..][1..] == rest;
  }

  lemma {:induction false} NothingAllocated(orders: seq<ApiOrder>, g: seq<nat>, some: T.SignedOrder -> bool)
    requires |g| == |orders| && forall i :: 0 <= i < |g| ==> g[i] == 0
    ensures AllocatedTo(orders, g, some) == 0
    decreases |orders|
  {
    if orders != [] {
      NothingAllocated(orders[1..], g[1..], some);
    }
  }

  // ---------- One post ----------

  /** The book's amounts are those that the contract has recorded. */
  ghost predicate Agrees(book: map<T.SignedOrder, nat>, chain: Orders.State) {
    forall o :: o in book ==> HasAddresses(o) && book[o] == chain.FilledAmount(EncodeOrder(o))
  }

  /** The contract tells these orders apart. */
  ghost predicate HaveDifferentHashes(orders: set<T.SignedOrder>) {
    && (forall o :: o in orders ==> HasAddresses(o))
    && forall o, p :: o in orders && p in orders && EncodeOrder(o) == EncodeOrder(p) ==> o == p
  }

  /** The contract's records grow by the fills of these trades. */
  ghost predicate RecordsFills(chain: Orders.State, chain': Orders.State, trades: seq<T.TempTradeArg>) {
    forall x :: chain'.FilledAmount(x) == chain.FilledAmount(x) + FilledIn(FillsOf(trades), KnownAs(x))
  }

  /** What the contract has recorded for the orders of a post, once the matched trades are executed. */
  lemma RecordedAfterPost(
    book: map<T.SignedOrder, nat>, taker: T.SignedOrder, orders: seq<ApiOrder>, ordersAddress: string,
    operator: string, chain: Orders.State, chain': Orders.State, o: T.SignedOrder)
    requires AllFillable(orders) && B.StoredOrders(book, taker, orders)
    requires HaveDifferentHashes(book.Keys + {taker}) && o in book.Keys + {taker}
    requires RecordsFills(
      chain, chain', MatchedTrades(ordersAddress, operator, taker, orders, taker.amount))
    ensures GrowsByPost(
      taker, orders, o, chain.FilledAmount(EncodeOrder(o)), chain'.FilledAmount(EncodeOrder(o)))
  {
    var some, g := KnownAs(EncodeOrder(o)), Greedy(orders, taker.amount);
    MatchedFills(ordersAddress, operator, taker, orders, taker.amount, some);
    forall p | p in book.Keys + {taker} ensures some(p) <==> p == o {
    }
    if k :| 0 <= k < |orders| && orders[k].order == o {
      AllocatedToOne(orders, g, some, k);
    } else {
      AllocatedToNone(orders, g, some);
    }
  }

  ghost predicate AgreesOn(book: map<T.SignedOrder, nat>, chain: Orders.State, o: T.SignedOrder) {
    o in book ==> HasAddresses(o) && book[o] == chain.FilledAmount(EncodeOrder(o))
  }

  lemma PostAgreesOn(
    book: map<T.SignedOrder, nat>, book': map<T.SignedOrder, nat>, taker: T.SignedOrder, orders: seq<ApiOrder>,
    ordersAddress: string, operator: string, chain: Orders.State, chain': Orders.State, o: T.SignedOrder)
    requires AllFillable(orders) && B.StoredOrders(book, taker, orders)
    requires B.Posted(book, book', taker, orders)
    requires HaveDifferentHashes(book.Keys + {taker}) && o in book.Keys + {taker}
    requires RecordsFills(
      chain, chain', MatchedTrades(ordersAddress, operator, taker, orders, taker.amount))
    requires Agrees(book, chain)
    ensures o != taker ==> AgreesOn(book', chain', o)
    ensures o == taker ==> (AgreesOn(book', chain', o) <==> chain.FilledAmount(EncodeOrder(o)) == 0)
  {
    RecordedAfterPost(book, taker, orders, ordersAddress, operator, chain, chain', o);
    SameGrowth(
      book, book', taker, orders, o, chain.FilledAmount(EncodeOrder(o)), chain'.FilledAmount(EncodeOrder(o)));
  }

  /** The book's amount of an order grows as the recorded one does; that of the new order starts at zero. */
  lemma SameGrowth(
    book: map<T.SignedOrder, nat>, book': map<T.SignedOrder, nat>, taker: T.SignedOrder, orders: seq<ApiOrder>,
    o: T.SignedOrder, before: nat, after: nat)
    requires AllFillable(orders) && B.Posted(book, book', taker, orders)
    requires GrowsByPost(taker, orders, o, before, after)
    requires o in book ==> book[o] == before
    ensures o != taker && o in book' ==> book'[o] == after
    ensures o == taker ==> o in book' && (book'[o] == after <==> before == 0)
  {
    assert o != taker && !B.Among(o, orders) ==> B.SameEntry(book, book', o);
  }

  ghost predicate GrowsByPost(
    taker: T.SignedOrder, orders: seq<ApiOrder>, o: T.SignedOrder, before: nat, after: nat)
    requires AllFillable(orders)
  {
    var g := Greedy(orders, taker.amount);
    && (o == taker ==> after == before + Sum(g))
    && (forall k :: 0 <= k < |orders| && orders[k].order == o ==> after == before + g[k])
    && (o != taker && !B.Among(o, orders) ==> after == before)
  }

  /**
   After a post that takes effect, book and contract agree exactly if the contract had no fill of the new order
   on record: the book starts every new order from nothing.
   */
  lemma PostAgreesExactly(
    book: map<T.SignedOrder, nat>, taker: T.SignedOrder, rows: seq<ApiOrder>, clock: nat -> real,
    orders: seq<ApiOrder>, ordersAddress: string, operator: string, chain: Orders.State, chain': Orders.State)
    requires B.Arranged(book, taker, rows, clock, orders) && AllFillable(orders)
    requires HaveDifferentHashes(book.Keys + {taker})
    requires RecordsFills(
      chain, chain', MatchedTrades(ordersAddress, operator, taker, orders, taker.amount))
    requires Agrees(book, chain)
    ensures Agrees(B.AfterPost(book, taker, orders), chain')
      <==> chain.FilledAmount(EncodeOrder(taker)) == 0
  {
    B.MatchedAreStored(book, taker, rows, clock, orders);
    B.PostIsExact(book, taker, rows, clock, orders);
    var book' := B.AfterPost(book, taker, orders);
    PostAgreesOn(book, book', taker, orders, ordersAddress, operator, chain, chain', taker);
    forall o | o in book' && o != taker ensures AgreesOn(book', chain', o) {
      assert B.Among(o, orders) || B.SameEntry(book, book', o);
      PostAgreesOn(book, book', taker, orders, ordersAddress, operator, chain, chain', o);
    }
    AgreesEverywhere(book', chain');
  }

  lemma AgreesEverywhere(book: map<T.SignedOrder, nat>, chain: Orders.State)
    ensures Agrees(book, chain) <==> forall o :: o in book ==> AgreesOn(book, chain, o)
  {
  }

  // ---------- Runs ----------

  /** A call with the batch of a match, in the circumstances in which it is executed. */
  datatype Call = Call(
    ordersAddress: string, operator: string, accounts: seq<string>, args: seq<T.TradeArg>, ledger: State,
    env: Env, sender: Address)

  /** It is the call that commit builds for the match. */
  ghost predicate IsCallFor(call: Call, taker: T.SignedOrder, orders: seq<ApiOrder>)
    requires AllFillable(orders)
  {
    && T.Builds(
         MatchedTrades(call.ordersAddress, call.operator, taker, orders, taker.amount), call.accounts, call.args)
    && AreFills(call.args)
    && forall i :: 0 <= i < |call.accounts| ==> T.IsAddressText(call.accounts[i])
  }

  ghost function Executed(chain: Orders.State, call: Call): Option<(State, Orders.State)> {
    if AreFills(call.args) && forall i :: 0 <= i < |call.accounts| ==> T.IsAddressText(call.accounts[i]) then
      TradeFills(call.ledger, chain, call.env, call.sender, T.ParseAll(call.accounts), call.args)
    else
      None
  }

  /** Posts and cancels of the book, and approvals and cancels on the chain. Nobody else fills the orders. */
  datatype Event =
    | BookEvent(event: B.Event, call: Call)
    | ApproveEvent(sender: Address, order: Orders.Order)
    | CancelEvent(sender: Address, order: Orders.Order)

  /** The post has matched something, and the transaction with its batch succeeds. */
  predicate SettlesMatch(e: Event) {
    && e.BookEvent? && e.event.PostEvent? && e.event.outcome.Succeeded?
    && e.event.orders != [] && e.event.taker.amount > 0
  }

  ghost predicate IsValid(book: map<T.SignedOrder, nat>, chain: Orders.State, e: Event) {
    e.BookEvent? ==>
      && B.ValidEvent(book, e.event)
      && (e.event.PostEvent? ==> HaveDifferentHashes(book.Keys + {e.event.taker}))
      && (SettlesMatch(e) ==> IsCallFor(e.call, e.event.taker, e.event.orders) && Executed(chain, e.call).Some?)
  }

  ghost function BookAfter(book: map<T.SignedOrder, nat>, e: Event): map<T.SignedOrder, nat>
    requires e.BookEvent? ==> B.ValidEvent(book, e.event)
  {
    if e.BookEvent? then B.TakeEvent(book, e.event) else book
  }

  ghost function ChainAfter(chain: Orders.State, e: Event): Orders.State
    requires SettlesMatch(e) ==> Executed(chain, e.call).Some?
  {
    match e
    case BookEvent(_, call) => if SettlesMatch(e) then Executed(chain, call).value.1 else chain
    case ApproveEvent(sender, order) => Orders.TakeEvent(Orders.Linear, chain, Orders.ApproveEvent(sender, order))
    case CancelEvent(sender, order) => Orders.TakeEvent(Orders.Linear, chain, Orders.CancelEvent(sender, order))
  }

  ghost predicate IsValidRun(book: map<T.SignedOrder, nat>, chain: Orders.State, events: seq<Event>)
    decreases |events|
  {
    events == [] ||
    (&& IsValid(book, chain, events[0])
     && IsValidRun(BookAfter(book, events[0]), ChainAfter(chain, events[0]), events[1..]))
  }

  /** A post that takes effect is of an order of which the contract has no fill on record. */
  ghost predicate PostsNewOrder(chain: Orders.State, e: Event)
    requires e.BookEvent? && e.event.PostEvent? ==> HasAddresses(e.event.taker)
  {
    e.BookEvent? && e.event.PostEvent? && B.TakesEffect(e.event.orders, e.event.taker, e.event.outcome) ==>
      chain.FilledAmount(EncodeOrder(e.event.taker)) == 0
  }

  lemma OneEvent(book: map<T.SignedOrder, nat>, chain: Orders.State, e: Event)
    requires IsValid(book, chain, e) && Agrees(book, chain)
    ensures e.BookEvent? && e.event.PostEvent? ==> HasAddresses(e.event.taker)
    ensures Agrees(BookAfter(book, e), ChainAfter(chain, e)) <==> PostsNewOrder(chain, e)
  {
    if e.BookEvent? && e.event.PostEvent? {
      var post := e.event;
      if B.TakesEffect(post.orders, post.taker, post.outcome) {
        PostRecordsFills(book, chain, e);
        PostAgreesExactly(
          book, post.taker, post.rows, post.clock, post.orders, e.call.ordersAddress, e.call.operator, chain,
          ChainAfter(chain, e));
      }
    }
  }

  lemma PostRecordsFills(book: map<T.SignedOrder, nat>, chain: Orders.State, e: Event)
    requires IsValid(book, chain, e) && e.BookEvent? && e.event.PostEvent?
    requires B.TakesEffect(e.event.orders, e.event.taker, e.event.outcome)
    ensures RecordsFills(chain, ChainAfter(chain, e),
      MatchedTrades(
        e.call.ordersAddress, e.call.operator, e.event.taker, e.event.orders, e.event.taker.amount))
  {
    if SettlesMatch(e) {
      ExecutedRecordsFills(chain, e.call, e.event.taker, e.event.orders);
    }
  }

  lemma ExecutedRecordsFills(
    chain: Orders.State, call: Call, taker: T.SignedOrder, orders: seq<ApiOrder>)
    requires AllFillable(orders) && IsCallFor(call, taker, orders) && Executed(chain, call).Some?
    ensures RecordsFills(chain, Executed(chain, call).value.1,
      MatchedTrades(call.ordersAddress, call.operator, taker, orders, taker.amount))
  {
    var trades := MatchedTrades(call.ordersAddress, call.operator, taker, orders, taker.amount);
    SameFills(trades, call.accounts, call.args);
    forall x
      ensures Executed(chain, call).value.1.FilledAmount(x)
        == chain.FilledAmount(x) + FilledIn(FillsOf(trades), KnownAs(x))
    {
      CallRecordsFills(
        call.ledger, chain, call.env, call.sender, T.ParseAll(call.accounts), call.args, x);
    }
  }

  lemma SameFills(trades: seq<T.TempTradeArg>, accounts: seq<string>, args: seq<T.TradeArg>)
    requires T.Builds(trades, accounts, args)
    ensures ArgFills(args) == FillsOf(trades)
  {
    assert forall i :: 0 <= i < |trades| ==> T.Resolves(accounts, args[i], trades[i]);
  }

  lemma CallRecordsFills(
    s: State, chain: Orders.State, env: Env, sender: Address, accounts: seq<Address>, args: seq<T.TradeArg>,
    x: Orders.Order)
    requires AreFills(args) && TradeFills(s, chain, env, sender, accounts, args).Some?
    ensures TradeFills(s, chain, env, sender, accounts, args).value.1.FilledAmount(x)
      == chain.FilledAmount(x) + FilledIn(ArgFills(args), KnownAs(x))
  {
    var (s1, context) := LoadContext(s, env).value;
    var settled := SettleAccounts(s1, context.index, accounts).value;
    FillsAreCounted(settled, chain, env, sender, accounts, args, {}, x);
  }

  /** Book and contract agree before, between and after the events. */
  ghost predicate AlwaysAgrees(book: map<T.SignedOrder, nat>, chain: Orders.State, events: seq<Event>)
    requires IsValidRun(book, chain, events)
    decreases |events|
  {
    && Agrees(book, chain)
    && (events == [] ||
        AlwaysAgrees(BookAfter(book, events[0]), ChainAfter(chain, events[0]), events[1..]))
  }

  ghost predicate PostsNewOrders(book: map<T.SignedOrder, nat>, chain: Orders.State, events: seq<Event>)
    requires IsValidRun(book, chain, events)
    decreases |events|
  {
    events == [] ||
    (&& (events[0].BookEvent? && events[0].event.PostEvent? ==> HasAddresses(events[0].event.taker))
     && PostsNewOrder(chain, events[0])
     && PostsNewOrders(BookAfter(book, events[0]), ChainAfter(chain, events[0]), events[1..]))
  }

  /**
   Over any run in which nobody but the operator fills the orders, the book agrees with the contract throughout
   exactly if every order that is posted had not been filled before: an order that is filled in part, taken out
   of the book or not, and posted again is offered a second time.
   */
  lemma {:induction false} BookAgreesExactly(
    book: map<T.SignedOrder, nat>, chain: Orders.State, events: seq<Event>)
    requires Agrees(book, chain) && IsValidRun(book, chain, events)
    ensures AlwaysAgrees(book, chain, events) <==> PostsNewOrders(book, chain, events)
    decreases |events|
  {
    if events != [] {
      var e := events[0];
      OneEvent(book, chain, e);
      if PostsNewOrder(chain, e) {
        BookAgreesExactly(BookAfter(book, e), ChainAfter(chain, e), events[1..]);
      } else {
        DisagreesFrom(BookAfter(book, e), ChainAfter(chain, e), events[1..]);
      }
    }
  }

  lemma DisagreesFrom(book: map<T.SignedOrder, nat>, chain: Orders.State, events: seq<Event>)
    requires IsValidRun(book, chain, events) && !Agrees(book, chain)
    ensures !AlwaysAgrees(book, chain, events)
  {
  }

  /** An order for two that was filled with one and is posted again: the book takes both for open. */
  lemma PostedAgain(clock: nat -> real, signer: Address)
    ensures var o := T.SignedOrder(ADDRESS, ADDRESS, true, false, 2, 1.0, 0.0, 0.0, 100, 0, signer);
      && HasAddresses(o)
      && var chain := Orders.State(map[EncodeOrder(o) := 1], map[]);
         && Agrees(map[o := 1], chain)
         && B.Arranged(map[o := 1], o, [], clock, [])
         && B.AfterPost(map[o := 1], o, []) == map[o := 0]
         && !Agrees(map[o := 0], chain)
  {
    AddressIsText();
  }
}
