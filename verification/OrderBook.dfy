/**
 The stored order book. A new order is matched against it first, and then stored with the amount it was
 filled. Over whole runs, what is left in the book does not cross.
 */
module OrderBook {
  import opened TradeOperation
  import opened Matcher

  /** The result of the query for one side: each stored order of it once, in any order, with its amount. */
  ghost predicate Selected(book: map<SignedOrder, nat>, isBuy: bool, rows: seq<ApiOrder>) {
    && DifferentOrders(rows)
    && (forall r :: r in rows ==> r.order in book && book[r.order] == r.filledAmount && r.order.isBuy == isBuy)
    && (forall o :: o in book && o.isBuy == isBuy ==> ApiOrder(o, book[o]) in rows)
  }

  function Save(book: map<SignedOrder, nat>, orders: seq<ApiOrder>): map<SignedOrder, nat>
    decreases |orders|
  {
    if orders == [] then book else Save(book[orders[0].order := orders[0].filledAmount], orders[1..])
  }

  predicate Among(o: SignedOrder, orders: seq<ApiOrder>) {
    exists i :: 0 <= i < |orders| && orders[i].order == o
  }

  ghost predicate SameEntry(book: map<SignedOrder, nat>, book': map<SignedOrder, nat>, o: SignedOrder) {
    (o in book' <==> o in book) && (o in book ==> book'[o] == book[o])
  }

  ghost predicate NeverOverfilled(book: map<SignedOrder, nat>) {
    forall o :: o in book ==> book[o] <= o.amount
  }

  /** Saving different orders records the amount of each, and leaves the others alone. */
  lemma {:induction false} SaveRecords(book: map<SignedOrder, nat>, orders: seq<ApiOrder>)
    requires DifferentOrders(orders)
    ensures var book' := Save(book, orders);
      && (forall i :: 0 <= i < |orders| ==>
           orders[i].order in book' && book'[orders[i].order] == orders[i].filledAmount)
      && (forall o :: !Among(o, orders) ==> SameEntry(book, book', o))
    decreases |orders|
  {
    if orders != [] {
      var first, rest := orders[0], orders[1..];
      SaveRecords(book[first.order := first.filledAmount], rest);
      assert forall i :: 0 <= i < |rest| ==> rest[i] == orders[i + 1];
      assert forall o :: Among(o, rest) ==> Among(o, orders);
      assert Among(first.order, orders) && !Among(first.order, rest);
      assert SameEntry(book[first.order := first.filledAmount], Save(book, orders), first.order);
    }
  }

  function FilledAll(orders: seq<ApiOrder>, amounts: seq<nat>): seq<ApiOrder>
    requires |orders| == |amounts|
  {
    seq(|orders|, i requires 0 <= i < |orders| => Filled(orders[i], amounts[i]))
  }

  /** The book after the new order was matched with `orders`. */
  function AfterPost(book: map<SignedOrder, nat>, taker: SignedOrder, orders: seq<ApiOrder>): map<SignedOrder, nat>
    requires AllFillable(orders)
  {
    var g := Greedy(orders, taker.amount);
    Save(book, FilledAll(orders, g))[taker := Sum(g)]
  }

  /** The matched orders gain their allocations, the new order has their sum, and nothing else is different. */
  ghost predicate Posted(
    book: map<SignedOrder, nat>, book': map<SignedOrder, nat>, taker: SignedOrder, orders: seq<ApiOrder>)
    requires AllFillable(orders)
  {
    var g := Greedy(orders, taker.amount);
    && taker in book' && book'[taker] == Sum(g)
    && (forall i :: 0 <= i < |orders| ==>
         && orders[i].order in book && orders[i].order in book'
         && book'[orders[i].order] == book[orders[i].order] + g[i])
    && (forall o :: o != taker && !Among(o, orders) ==> SameEntry(book, book', o))
  }

  /** The rows are the stored orders of the other side, and `orders` are the crossing ones, best price first. */
  ghost predicate Arranged(
    book: map<SignedOrder, nat>, taker: SignedOrder, rows: seq<ApiOrder>, clock: nat -> real, orders: seq<ApiOrder>)
  {
    Selected(book, !taker.isBuy, rows) && SortedCrossing(taker, rows, clock, orders)
  }

  ghost predicate StoredOrders(book: map<SignedOrder, nat>, taker: SignedOrder, orders: seq<ApiOrder>) {
    && DifferentOrders(orders)
    && forall i :: 0 <= i < |orders| ==>
      && orders[i].order in book && book[orders[i].order] == orders[i].filledAmount
      && orders[i].order.isBuy != taker.isBuy
  }

  /** What is matched are different orders of the other side, with the amounts of the book. */
  lemma MatchedAreStored(
    book: map<SignedOrder, nat>, taker: SignedOrder, rows: seq<ApiOrder>, clock: nat -> real, orders: seq<ApiOrder>)
    requires Arranged(book, taker, rows, clock, orders)
    ensures AllFillable(orders) && StoredOrders(book, taker, orders)
  {
    MatchedOrders(taker, rows, clock, orders);
    MatchedAreDifferent(taker, rows, clock, orders);
    forall i | 0 <= i < |orders| ensures orders[i] in rows {
      assert orders[i] in orders;
    }
  }

  lemma FillsAreRecorded(book: map<SignedOrder, nat>, orders: seq<ApiOrder>, g: seq<nat>)
    requires |g| == |orders| && DifferentOrders(orders)
    ensures var book' := Save(book, FilledAll(orders, g));
      && (forall i :: 0 <= i < |orders| ==>
           orders[i].order in book' && book'[orders[i].order] == orders[i].filledAmount + g[i])
      && (forall o :: !Among(o, orders) ==> SameEntry(book, book', o))
  {
    var filled := FilledAll(orders, g);
    SaveRecords(book, filled);
    assert forall i :: 0 <= i < |orders| ==> filled[i] == Filled(orders[i], g[i]);
    forall o | !Among(o, orders) ensures !Among(o, filled) {
      assert forall i :: 0 <= i < |orders| ==> filled[i].order == orders[i].order;
    }
  }

  lemma PostIsExact(
    book: map<SignedOrder, nat>, taker: SignedOrder, rows: seq<ApiOrder>, clock: nat -> real, orders: seq<ApiOrder>)
    requires Arranged(book, taker, rows, clock, orders)
    ensures AllFillable(orders)
    ensures Posted(book, AfterPost(book, taker, orders), taker, orders)
  {
    MatchedAreStored(book, taker, rows, clock, orders);
    StoredAreRecorded(book, taker, orders);
  }

  lemma StoredAreRecorded(book: map<SignedOrder, nat>, taker: SignedOrder, orders: seq<ApiOrder>)
    requires AllFillable(orders) && StoredOrders(book, taker, orders)
    ensures Posted(book, AfterPost(book, taker, orders), taker, orders)
  {
    FillsAreRecorded(book, orders, Greedy(orders, taker.amount));
  }

  /** A stored order of the other side that the filters let through. */
  ghost predicate Considered(taker: SignedOrder, rows: seq<ApiOrder>, clock: nat -> real, o: SignedOrder) {
    exists i :: 0 <= i < |rows| && rows[i].order == o
      && o.expiration as real > clock(i) + i as real && PricesMeet(taker, o)
  }

  /** No order has more than its amount, and if the new one is left with something, no order it could have had is. */
  lemma PostLeavesNothing(
    book: map<SignedOrder, nat>, taker: SignedOrder, rows: seq<ApiOrder>, clock: nat -> real, orders: seq<ApiOrder>)
    requires Arranged(book, taker, rows, clock, orders) && NeverOverfilled(book)
    ensures AllFillable(orders)
    ensures var book' := AfterPost(book, taker, orders);
      && NeverOverfilled(book')
      && taker in book'
      && (book'[taker] < taker.amount ==>
           forall o :: Considered(taker, rows, clock, o) ==> o in book' && book'[o] == o.amount)
  {
    MatchedAreStored(book, taker, rows, clock, orders);
    PostIsExact(book, taker, rows, clock, orders);
    GreedyFills(orders, taker.amount);
    var book' := AfterPost(book, taker, orders);
    forall o | o in book' ensures book'[o] <= o.amount {
      if o != taker && !Among(o, orders) {
        assert SameEntry(book, book', o);
      }
    }
    if book'[taker] < taker.amount {
      forall o | Considered(taker, rows, clock, o) ensures o in book' && book'[o] == o.amount {
        ConsideredIsFilled(book, taker, rows, clock, orders, o);
      }
    }
  }

  lemma ConsideredIsFilled(
    book: map<SignedOrder, nat>, taker: SignedOrder, rows: seq<ApiOrder>, clock: nat -> real, orders: seq<ApiOrder>,
    o: SignedOrder)
    requires Arranged(book, taker, rows, clock, orders) && NeverOverfilled(book)
    requires AllFillable(orders) && Sum(Greedy(orders, taker.amount)) < taker.amount
    requires Considered(taker, rows, clock, o)
    ensures var book' := AfterPost(book, taker, orders);
      o in book' && book'[o] == o.amount
  {
    var i :| 0 <= i < |rows| && rows[i].order == o
      && o.expiration as real > clock(i) + i as real && PricesMeet(taker, o);
    assert rows[i] in rows;
    PostIsExact(book, taker, rows, clock, orders);
    if rows[i].Fillable() {
      MatchedOrders(taker, rows, clock, orders);
      assert IsCandidate(taker, rows[i], clock(i), i);
      assert rows[i] in orders;
      var k :| 0 <= k < |orders| && orders[k] == rows[i];
      GreedyFills(orders, taker.amount);
    } else {
      MatchedAreStored(book, taker, rows, clock, orders);
      assert forall k :: 0 <= k < |orders| && orders[k].order == o ==> orders[k].Fillable();
      assert SameEntry(book, AfterPost(book, taker, orders), o);
    }
  }

  class Book {
    var filled: map<SignedOrder, nat>

    constructor ()
      ensures filled == map[]
    {
      filled := map[];
    }

    /** Orders that were not used are saved with the amount they had. */
    method SaveOrders(orders: array<ApiOrder>)
      modifies this
      ensures filled == Save(old(filled), orders[..])
    {
      for i := 0 to orders.Length
        invariant Save(old(filled), orders[..]) == Save(filled, orders[i..])
      {
        assert orders[i..][1..] == orders[i + 1..];
        filled := filled[orders[i].order := orders[i].filledAmount];
      }
    }

    method AddOrder(order: SignedOrder, filledAmount: nat)
      modifies this
      ensures filled == old(filled)[order := filledAmount]
    {
      filled := filled[order := filledAmount];
    }

    /** Removes the orders, by hash. */
    method CancelOrders(orders: set<SignedOrder>)
      modifies this
      ensures filled == old(filled) - orders
    {
      filled := filled - orders;
    }

    /**
     Matches a new order and stores it. If the batch of matched trades does not succeed, the book stays as it
     was. Otherwise each matched order gains exactly its allocation, the new order has their sum, and no other
     order changes; and if the new order is left with something, no order that the filters let through is.
     */
    method PostOrder(
      taker: SignedOrder, operator: string, ordersAddress: string, rows: seq<ApiOrder>, clock: nat -> real,
      apiOrders: array<ApiOrder>, outcome: Outcome)
      returns (ok: bool, isFulfilled: bool)
      requires NeverOverfilled(filled)
      requires Arranged(filled, taker, rows, clock, apiOrders[..])
      modifies this, apiOrders
      ensures NeverOverfilled(filled)
      ensures AllFillable(old(apiOrders[..]))
      ensures ok == (apiOrders.Length == 0 || taker.amount == 0 || outcome.Succeeded?)
      ensures !ok ==> filled == old(filled)
      ensures ok ==>
        && filled == AfterPost(old(filled), taker, old(apiOrders[..]))
        && Posted(old(filled), filled, taker, old(apiOrders[..]))
        && isFulfilled == (filled[taker] == taker.amount)
        && (!isFulfilled ==> forall o :: Considered(taker, rows, clock, o) ==> o in filled && filled[o] == o.amount)
    {
      ghost var orders := apiOrders[..];
      PostIsExact(filled, taker, rows, clock, orders);
      PostLeavesNothing(filled, taker, rows, clock, orders);
      GreedyFills(orders, taker.amount);
      var filledAmount, totalVolume, call;
      ok, filledAmount, isFulfilled, totalVolume, call :=
        FulfillOrder(taker, operator, ordersAddress, rows, clock, apiOrders, outcome);
      if !ok {
        return;
      }
      assert apiOrders[..] == FilledAll(orders, Greedy(orders, taker.amount));
      SaveOrders(apiOrders);
      AddOrder(taker, filledAmount);
    }
  }

  // ---------- Runs ----------

  datatype Event =
    | PostEvent(taker: SignedOrder, rows: seq<ApiOrder>, clock: nat -> real, orders: seq<ApiOrder>, outcome: Outcome)
    | CancelEvent(canceled: set<SignedOrder>)

  ghost predicate ValidEvent(book: map<SignedOrder, nat>, e: Event) {
    e.PostEvent? ==> Arranged(book, e.taker, e.rows, e.clock, e.orders) && AllFillable(e.orders)
  }

  /** The post is not undone by a transaction that fails. */
  predicate TakesEffect(orders: seq<ApiOrder>, taker: SignedOrder, outcome: Outcome) {
    orders == [] || taker.amount == 0 || outcome.Succeeded?
  }

  function TakeEvent(book: map<SignedOrder, nat>, e: Event): map<SignedOrder, nat>
    requires e.PostEvent? ==> AllFillable(e.orders)
  {
    match e
    case PostEvent(taker, _, _, orders, outcome) =>
      if TakesEffect(orders, taker, outcome) then AfterPost(book, taker, orders) else book
    case CancelEvent(canceled) => book - canceled
  }

  /** Each post reads the book as the events before it left it. */
  ghost predicate ValidRun(book: map<SignedOrder, nat>, events: seq<Event>)
    decreases |events|
  {
    events == [] || (ValidEvent(book, events[0]) && ValidRun(TakeEvent(book, events[0]), events[1..]))
  }

  function Run(book: map<SignedOrder, nat>, events: seq<Event>): map<SignedOrder, nat>
    requires ValidRun(book, events)
    decreases |events|
  {
    if events == [] then book else Run(TakeEvent(book, events[0]), events[1..])
  }

  /** The order has something left and expires later. */
  predicate IsOpen(book: map<SignedOrder, nat>, o: SignedOrder, moment: real) {
    o in book && book[o] < o.amount && o.expiration as real > moment
  }

  /** Every open order to buy is below every open order to sell. */
  ghost predicate NothingCrosses(book: map<SignedOrder, nat>, moment: real) {
    forall b, s :: IsOpen(book, b, moment) && IsOpen(book, s, moment) && b.isBuy && !s.isBuy ==>
      b.limitPrice < s.limitPrice
  }

  /** Whatever still has something left after a post had something left before, or is the new order. */
  lemma LeftBefore(
    book: map<SignedOrder, nat>, taker: SignedOrder, rows: seq<ApiOrder>, clock: nat -> real, orders: seq<ApiOrder>,
    o: SignedOrder)
    requires Arranged(book, taker, rows, clock, orders) && AllFillable(orders)
    requires o in AfterPost(book, taker, orders) && o != taker
    ensures o in book && book[o] <= AfterPost(book, taker, orders)[o]
  {
    PostIsExact(book, taker, rows, clock, orders);
    assert Among(o, orders) || SameEntry(book, AfterPost(book, taker, orders), o);
  }

  /** Every stored order that can be matched with the new one passes the check, if it expires later. */
  ghost predicate NoneSkipped(taker: SignedOrder, rows: seq<ApiOrder>, clock: nat -> real, moment: real) {
    forall i :: 0 <= i < |rows| && rows[i].filledAmount < rows[i].order.amount
      && PricesMeet(taker, rows[i].order) && rows[i].order.expiration as real > moment
      ==> rows[i].order.expiration as real > clock(i) + i as real
  }

  /** The new order does not stay, or gets all that it asks for, or nothing is skipped. */
  ghost predicate IsCleanPost(
    taker: SignedOrder, rows: seq<ApiOrder>, clock: nat -> real, orders: seq<ApiOrder>, moment: real)
    requires AllFillable(orders)
  {
    || taker.expiration as real <= moment
    || taker.amount <= TotalAvailable(orders)
    || NoneSkipped(taker, rows, clock, moment)
  }

  /** Exactly when a post leaves an uncrossed book uncrossed. */
  lemma PostUncrossedExactly(
    book: map<SignedOrder, nat>, taker: SignedOrder, rows: seq<ApiOrder>, clock: nat -> real,
    orders: seq<ApiOrder>, moment: real)
    requires Arranged(book, taker, rows, clock, orders) && AllFillable(orders) && NeverOverfilled(book)
    requires NothingCrosses(book, moment)
    ensures NothingCrosses(AfterPost(book, taker, orders), moment)
      <==> IsCleanPost(taker, rows, clock, orders, moment)
  {
    if IsCleanPost(taker, rows, clock, orders, moment) {
      CleanPostKeepsUncrossed(book, taker, rows, clock, orders, moment);
    } else {
      var i :| 0 <= i < |rows| && rows[i].filledAmount < rows[i].order.amount
        && PricesMeet(taker, rows[i].order) && rows[i].order.expiration as real > moment
        && !(rows[i].order.expiration as real > clock(i) + i as real);
      SkippedStays(book, taker, rows, clock, orders, i);
      PostIsExact(book, taker, rows, clock, orders);
      GreedyTotal(orders, taker.amount);
      var book' := AfterPost(book, taker, orders);
      assert IsOpen(book', taker, moment) && IsOpen(book', rows[i].order, moment);
    }
  }

  lemma CleanPostKeepsUncrossed(
    book: map<SignedOrder, nat>, taker: SignedOrder, rows: seq<ApiOrder>, clock: nat -> real,
    orders: seq<ApiOrder>, moment: real)
    requires Arranged(book, taker, rows, clock, orders) && AllFillable(orders) && NeverOverfilled(book)
    requires NothingCrosses(book, moment) && IsCleanPost(taker, rows, clock, orders, moment)
    ensures NothingCrosses(AfterPost(book, taker, orders), moment)
  {
    var book' := AfterPost(book, taker, orders);
    PostLeavesNothing(book, taker, rows, clock, orders);
    PostIsExact(book, taker, rows, clock, orders);
    GreedyTotal(orders, taker.amount);
    forall b, s | IsOpen(book', b, moment) && IsOpen(book', s, moment) && b.isBuy && !s.isBuy
      ensures b.limitPrice < s.limitPrice
    {
      if b != taker && s != taker {
        LeftBefore(book, taker, rows, clock, orders, b);
        LeftBefore(book, taker, rows, clock, orders, s);
      } else {
        var other := if b == taker then s else b;
        LeftBefore(book, taker, rows, clock, orders, other);
        var i :| 0 <= i < |rows| && rows[i] == ApiOrder(other, book[other]);
        assert PricesMeet(taker, rows[i].order) ==> Considered(taker, rows, clock, other);
      }
    }
  }

  /** An order that does not pass the check keeps the amount it had. */
  lemma SkippedStays(
    book: map<SignedOrder, nat>, taker: SignedOrder, rows: seq<ApiOrder>, clock: nat -> real,
    orders: seq<ApiOrder>, i: nat)
    requires Arranged(book, taker, rows, clock, orders) && AllFillable(orders)
    requires i < |rows| && rows[i].order.expiration as real <= clock(i) + i as real
    ensures var o, book' := rows[i].order, AfterPost(book, taker, orders);
      o in book' && book'[o] == rows[i].filledAmount && o.isBuy != taker.isBuy
  {
    var o := rows[i].order;
    assert rows[i] in rows;
    MatchedOrders(taker, rows, clock, orders);
    forall k | 0 <= k < |orders| ensures orders[k].order != o {
      assert orders[k] in orders;
    }
    assert !Among(o, orders);
    PostIsExact(book, taker, rows, clock, orders);
    assert SameEntry(book, AfterPost(book, taker, orders), o);
  }

  ghost predicate IsCleanEvent(e: Event, moment: real) {
    e.PostEvent? && AllFillable(e.orders) && TakesEffect(e.orders, e.taker, e.outcome) ==>
      IsCleanPost(e.taker, e.rows, e.clock, e.orders, moment)
  }

  /** The book is uncrossed before, between and after the events. */
  ghost predicate AlwaysUncrossed(book: map<SignedOrder, nat>, events: seq<Event>, moment: real)
    requires ValidRun(book, events)
    decreases |events|
  {
    && NothingCrosses(book, moment)
    && (events == [] || AlwaysUncrossed(TakeEvent(book, events[0]), events[1..], moment))
  }

  /**
   Over any run of posts and cancels, from the empty book or from any as good: no order is overfilled, and the
   book is uncrossed throughout exactly if every post that takes effect is clean.
   */
  lemma {:induction false} BookNeverCrosses(book: map<SignedOrder, nat>, events: seq<Event>, moment: real)
    requires NeverOverfilled(book) && NothingCrosses(book, moment)
    requires ValidRun(book, events)
    ensures NeverOverfilled(Run(book, events))
    ensures AlwaysUncrossed(book, events, moment) <==> forall e :: e in events ==> IsCleanEvent(e, moment)
    ensures AlwaysUncrossed(book, events, moment) ==> NothingCrosses(Run(book, events), moment)
    decreases |events|
  {
    if events != [] {
      var e, next := events[0], TakeEvent(book, events[0]);
      OneEvent(book, e, moment);
      assert forall x :: x in events <==> x == e || x in events[1..];
      if NothingCrosses(next, moment) {
        BookNeverCrosses(next, events[1..], moment);
      } else {
        RunNeverOverfills(next, events[1..]);
      }
    }
  }

  lemma OneEvent(book: map<SignedOrder, nat>, e: Event, moment: real)
    requires NeverOverfilled(book) && NothingCrosses(book, moment) && ValidEvent(book, e)
    ensures NothingCrosses(TakeEvent(book, e), moment) <==> IsCleanEvent(e, moment)
    ensures NeverOverfilled(TakeEvent(book, e))
  {
    if e.PostEvent? {
      PostUncrossedExactly(book, e.taker, e.rows, e.clock, e.orders, moment);
      PostLeavesNothing(book, e.taker, e.rows, e.clock, e.orders);
    } else {
      assert forall o :: IsOpen(book - e.canceled, o, moment) ==> IsOpen(book, o, moment);
    }
  }

  lemma {:induction false} RunNeverOverfills(book: map<SignedOrder, nat>, events: seq<Event>)
    requires NeverOverfilled(book) && ValidRun(book, events)
    ensures NeverOverfilled(Run(book, events))
    decreases |events|
  {
    if events != [] {
      var e := events[0];
      if e.PostEvent? {
        PostLeavesNothing(book, e.taker, e.rows, e.clock, e.orders);
      }
      RunNeverOverfills(TakeEvent(book, e), events[1..]);
    }
  }

  function OneUnit(isBuy: bool, price: real): SignedOrder {
    SignedOrder("", "", isBuy, false, 1, price, 0.0, 0.0, 100, 0, 0)
  }

  /**
   A post that is not clean, since the place in the list counts: of two orders to sell that
   expire in half a second, the second one is skipped, and then rests in the book beside the buyer at the
   same price that it should have been sold to.
   */
  lemma SkippedByPlace()
    ensures var far, near, taker := OneUnit(false, 5.0), OneUnit(false, 1.0), OneUnit(true, 1.0);
      var book, clock := map[far := 0, near := 0], (place: nat) => 99.5;
      && Arranged(book, taker, [ApiOrder(far, 0), ApiOrder(near, 0)], clock, [])
      && near.expiration as real > 99.5
      && NothingCrosses(book, 99.5)
      && !NothingCrosses(AfterPost(book, taker, []), 99.5)
  {
    var far, near, taker := OneUnit(false, 5.0), OneUnit(false, 1.0), OneUnit(true, 1.0);
    var clock := (place: nat) => 99.5;
    var rows := [ApiOrder(far, 0), ApiOrder(near, 0)];
    assert rows[1..] == [rows[1]];
    assert FreshFrom(rows[1..], clock, 1) == [];
    assert FreshFrom(rows, clock, 0) == [rows[0]];
    assert Crossing(taker, [rows[0]]) == [];
    var book := AfterPost(map[far := 0, near := 0], taker, []);
    assert IsOpen(book, taker, 99.5) && IsOpen(book, near, 99.5);
  }
}
