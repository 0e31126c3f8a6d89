/** P1Deleveraging: an underwater account is taken over by one with an offsetting position. */
module Deleveraging {
  import opened Options
  import opened BaseMath
  import opened BalanceMath
  import opened Collateral
  import opened TakeOver
  import L = Ledger

  type Address = L.Address

  const TIMELOCK: nat := 1800
  const FLAGS: set<nat> := {2}

  /** A timestamp of zero means that the account is not marked. */
  datatype State = State(markedTimestamp: map<Address, nat>, operator: Address) {
    function MarkedAt(account: Address): nat {
      if account in markedTimestamp then markedTimestamp[account] else 0
    }
  }

  predicate IsUnderwater(b: Balance, price: nat) {
    var (positive, negative) := GetPositiveAndNegativeValue(b, price);
    positive < negative
  }

  /** The account's margin and position together are worth less than nothing. */
  lemma UnderwaterExactly(b: Balance, price: nat)
    ensures IsUnderwater(b, price) <==> BASE * b.Margin() + price * b.Position() < 0
  {
  }

  predicate VerifyPermissions(s: State, sender: Address, maker: Address, now: nat) {
    sender == s.operator || (s.MarkedAt(maker) != 0 && now >= s.MarkedAt(maker) && now - s.MarkedAt(maker) >= TIMELOCK)
  }

  predicate VerifyTrade(data: TradeData, maker: Balance, taker: Balance, price: nat) {
    && IsUnderwater(maker, price)
    && (!data.allOrNothing || maker.position >= data.amount)
    && taker.positionIsPositive != maker.positionIsPositive
    && (!data.allOrNothing || taker.position >= data.amount)
    && data.isBuy == maker.positionIsPositive
    && !BothNegative(maker)
  }

  function ExecutionAmount(data: TradeData, maker: Balance, taker: Balance): nat {
    BaseMath.Min(data.amount, BaseMath.Min(maker.position, taker.position))
  }

  function Unmarked(s: State, account: Address): State {
    s.(markedTimestamp := s.markedTimestamp[account := 0])
  }

  function Execute(s: State, data: TradeData, view: L.TraderView): Option<(State, L.TradeResult)> {
    var _ :- Require(view.traderFlags == {});
    var _ :- Require(VerifyPermissions(s, view.sender, view.maker, view.now));
    var maker, taker := view.state.BalanceOf(view.maker), view.state.BalanceOf(view.taker);
    var _ :- Require(VerifyTrade(data, maker, taker, view.price));
    var amount := ExecutionAmount(data, maker, taker);
    var marginAmount :- MarginFor(maker, amount, data.isBuy);
    var s' := if amount == maker.position && s.MarkedAt(view.maker) != 0 then Unmarked(s, view.maker) else s;
    Some((s', L.TradeResult(marginAmount, amount, data.isBuy, FLAGS)))
  }

  function AfterMark(s: State, account: Address, ledger: L.State, price: nat, now: nat): Option<State> {
    var _ :- Require(IsUnderwater(ledger.BalanceOf(account), price));
    Some(s.(markedTimestamp := s.markedTimestamp[account := now]))
  }

  function AfterUnmark(s: State, account: Address, ledger: L.State, price: nat): Option<State> {
    var _ :- Require(!IsUnderwater(ledger.BalanceOf(account), price));
    Some(Unmarked(s, account))
  }

  class P1Deleveraging {
    var markedTimestamp: map<Address, nat>
    var operator: Address

    function Abs(): State
      reads this
    {
      State(markedTimestamp, operator)
    }

    constructor (operator: Address)
      ensures Abs() == State(map[], operator)
    {
      markedTimestamp, this.operator := map[], operator;
    }

    method Trade(data: TradeData, view: L.TraderView) returns (r: Option<L.TradeResult>)
      modifies this
      ensures r.Some? == Execute(old(Abs()), data, view).Some?
      ensures r.Some? ==> (Abs(), r.value) == Execute(old(Abs()), data, view).value
      ensures r.None? ==> Abs() == old(Abs())
    {
      if view.traderFlags != {} || !VerifyPermissions(Abs(), view.sender, view.maker, view.now) {
        return None;
      }
      var maker, taker := view.state.BalanceOf(view.maker), view.state.BalanceOf(view.taker);
      if !VerifyTrade(data, maker, taker, view.price) {
        return None;
      }
      var amount := ExecutionAmount(data, maker, taker);
      var marginAmount := MarginFor(maker, amount, data.isBuy);
      if marginAmount.None? {
        return None;
      }
      if amount == maker.position && Abs().MarkedAt(view.maker) != 0 {
        markedTimestamp := markedTimestamp[view.maker := 0];
      }
      return Some(L.TradeResult(marginAmount.value, amount, data.isBuy, FLAGS));
    }

    /** `ledger` is the state of the perpetual contract at the time of the call, and the price its oracle's. */
    method Mark(account: Address, ledger: L.State, price: nat, now: nat) returns (ok: bool)
      modifies this
      ensures ok == AfterMark(old(Abs()), account, ledger, price, now).Some?
      ensures Abs() == if ok then AfterMark(old(Abs()), account, ledger, price, now).value else old(Abs())
    {
      ok := IsUnderwater(ledger.BalanceOf(account), price);
      if ok {
        markedTimestamp := markedTimestamp[account := now];
      }
    }

    method Unmark(account: Address, ledger: L.State, price: nat) returns (ok: bool)
      modifies this
      ensures ok == AfterUnmark(old(Abs()), account, ledger, price).Some?
      ensures Abs() == if ok then AfterUnmark(old(Abs()), account, ledger, price).value else old(Abs())
    {
      ok := !IsUnderwater(ledger.BalanceOf(account), price);
      if ok {
        markedTimestamp := markedTimestamp[account := 0];
      }
    }

    method SetDeleveragingOperator(newOperator: Address)
      modifies this
      ensures Abs() == old(Abs()).(operator := newOperator)
    {
      operator := newOperator;
    }
  }

  // ---------- What is accepted ----------

  /** The operator, or anyone once the maker has been marked for long enough. */
  ghost predicate MayDeleverage(s: State, sender: Address, maker: Address, now: nat) {
    sender == s.operator || (s.MarkedAt(maker) != 0 && s.MarkedAt(maker) + 1800 <= now)
  }

  /** What both sides of the trade must be like: an underwater maker, and a taker on the other side. */
  ghost predicate IsOffset(data: TradeData, maker: Balance, taker: Balance, price: nat) {
    && BASE * maker.Margin() + price * maker.Position() < 0
    && (maker.Position() >= 0 || maker.Margin() >= 0)
    && maker.position > 0 && data.isBuy == maker.positionIsPositive
    && taker.positionIsPositive != maker.positionIsPositive
    && (data.allOrNothing ==> data.amount <= maker.position && data.amount <= taker.position)
  }

  /** Exactly which deleveragings are accepted. None can follow another trade in its batch. */
  lemma DeleveragingIsAcceptedExactly(s: State, data: TradeData, view: L.TraderView)
    ensures Execute(s, data, view).Some? <==>
      && view.traderFlags == {}
      && MayDeleverage(s, view.sender, view.maker, view.now)
      && IsOffset(data, view.state.BalanceOf(view.maker), view.state.BalanceOf(view.taker), view.price)
  {
    UnderwaterExactly(view.state.BalanceOf(view.maker), view.price);
  }

  /** The largest amount that is within the request and both positions. */
  ghost predicate IsLargest(amount: nat, data: TradeData, maker: Balance, taker: Balance) {
    && amount <= data.amount && amount <= maker.position && amount <= taker.position
    && (amount == data.amount || amount == maker.position || amount == taker.position)
  }

  /**
   What a deleveraging does to both sides, once the ledger has applied it: both positions shrink by the largest
   amount that is possible, all of the request if that was demanded, and neither flips.
   */
  lemma BothSidesShrink(s: State, data: TradeData, view: L.TraderView)
    requires Execute(s, data, view).Some? && view.maker != view.taker
    requires L.ApplyResult(view.state, view.maker, view.taker, Execute(s, data, view).value.1).Some?
    ensures var ledger, r := view.state, Execute(s, data, view).value.1;
      var ledger' := L.ApplyResult(ledger, view.maker, view.taker, r).value;
      var maker, taker := ledger.BalanceOf(view.maker), ledger.BalanceOf(view.taker);
      && IsLargest(r.positionAmount, data, maker, taker)
      && (data.allOrNothing ==> r.positionAmount == data.amount)
      && ShrinksBy(maker, ledger'.BalanceOf(view.maker), r.positionAmount)
      && ShrinksBy(taker, ledger'.BalanceOf(view.taker), r.positionAmount)
      && ledger'.BalanceOf(view.maker).Margin() - maker.Margin()
           == taker.Margin() - ledger'.BalanceOf(view.taker).Margin()
           == (if data.isBuy then 1 else -1) * r.marginAmount
  {
    L.ApplyResultMoves(view.state, view.maker, view.taker, Execute(s, data, view).value.1);
  }

  // ---------- The maker's final check ----------

  /**
   For a maker that passes the contract's checks, whatever amount is requested, the result is accepted by
   the final check exactly when no collateral is required, or the maker has positive-side value or is
   taken over completely.
   */
  lemma EveryAmountAccepted(s: State, data: TradeData, view: L.TraderView)
    requires view.price > 0 && view.traderFlags == {}
    requires VerifyPermissions(s, view.sender, view.maker, view.now)
    requires var maker, taker := view.state.BalanceOf(view.maker), view.state.BalanceOf(view.taker);
      VerifyTrade(data, maker, taker, view.price) && maker.position > 0
    ensures Execute(s, data, view).Some?
    ensures var maker := view.state.BalanceOf(view.maker);
      var r := Execute(s, data, view).value.1;
      var after := L.MoveBalance(maker, r, r.isBuy);
      && after.Some?
      && (L.AccountAllowed(maker, after.value, view.price, view.state.minCollateral)
          <==> view.state.minCollateral == 0 || PositiveValue(maker, view.price) > 0
               || r.positionAmount == maker.position)
      && (r.positionAmount == maker.position ==> after.value == EMPTY_BALANCE)
  {
    var maker, taker := view.state.BalanceOf(view.maker), view.state.BalanceOf(view.taker);
    var amount := ExecutionAmount(data, maker, taker);
    MarginForBounds(maker, amount);
    MakerAcceptedExactly(maker, amount, FLAGS, view.price, view.state.minCollateral);
  }

  // ---------- The time lock over whole runs ----------

  datatype Event =
    | TradeEvent(data: TradeData, view: L.TraderView)
    | MarkEvent(account: Address, ledger: L.State, price: nat, now: nat)
    | UnmarkEvent(account: Address, ledger: L.State, price: nat)
    | OperatorEvent(newOperator: Address)

  function TryEvent(s: State, e: Event): Option<State> {
    match e
    case TradeEvent(data, view) => var (s', _) :- Execute(s, data, view); Some(s')
    case MarkEvent(account, ledger, price, now) => AfterMark(s, account, ledger, price, now)
    case UnmarkEvent(account, ledger, price) => AfterUnmark(s, account, ledger, price)
    case OperatorEvent(newOperator) => Some(s.(operator := newOperator))
  }

  /** The state before the event at position n. */
  function StateAt(operator: Address, events: seq<Event>, n: nat): State
    requires n <= |events|
  {
    if n == 0 then
      State(map[], operator)
    else
      var before := StateAt(operator, events, n - 1);
      match TryEvent(before, events[n - 1])
      case Some(after) => after
      case None => before
  }

  predicate Accepted(operator: Address, events: seq<Event>, n: nat)
    requires n < |events|
  {
    TryEvent(StateAt(operator, events, n), events[n]).Some?
  }

  /** The event starts the clock of this account. */
  predicate Marks(operator: Address, events: seq<Event>, n: nat, account: Address)
    requires n < |events|
  {
    Accepted(operator, events, n) && events[n].MarkEvent? && events[n].account == account
  }

  /** The event ends the mark of this account: an unmark, or a deleveraging of its whole position. */
  predicate Clears(operator: Address, events: seq<Event>, n: nat, account: Address)
    requires n < |events|
  {
    && Accepted(operator, events, n)
    && match events[n]
       case UnmarkEvent(a, _, _) => a == account
       case TradeEvent(data, view) =>
         && view.maker == account
         && Execute(StateAt(operator, events, n), data, view).value.1.positionAmount
              == view.state.BalanceOf(account).position
       case _ => false
  }

  /** An account can be marked exactly while it is underwater, and unmarked exactly while it is not. */
  lemma MarkingIsAcceptedExactly(s: State, account: Address, ledger: L.State, price: nat, now: nat)
    ensures var b := ledger.BalanceOf(account);
      var equity := BASE * b.Margin() + price * b.Position();
      && (AfterMark(s, account, ledger, price, now).Some? <==> equity < 0)
      && (AfterUnmark(s, account, ledger, price).Some? <==> equity >= 0)
  {
    UnderwaterExactly(ledger.BalanceOf(account), price);
  }

  /** Event j is the account's last mark before n, and nothing has cleared it since. */
  ghost predicate MarkedSince(operator: Address, events: seq<Event>, n: nat, account: Address, j: nat) {
    && j < n <= |events|
    && Marks(operator, events, j, account)
    && forall k :: j < k < n ==> !Marks(operator, events, k, account) && !Clears(operator, events, k, account)
  }

  /** A recorded timestamp always comes from such a mark. */
  lemma {:induction false} MarkHasEvent(operator: Address, events: seq<Event>, n: nat, account: Address)
    returns (j: nat)
    requires n <= |events|
    requires StateAt(operator, events, n).MarkedAt(account) != 0
    ensures MarkedSince(operator, events, n, account, j)
    ensures events[j].now == StateAt(operator, events, n).MarkedAt(account)
    decreases n
  {
    var m := n - 1;
    if Marks(operator, events, m, account) {
      j := m;
    } else {
      OneEventKeepsMark(operator, events, m, account);
      j := MarkHasEvent(operator, events, m, account);
    }
  }

  lemma OneEventKeepsMark(operator: Address, events: seq<Event>, m: nat, account: Address)
    requires m < |events|
    requires !Marks(operator, events, m, account)
    requires StateAt(operator, events, m + 1).MarkedAt(account) != 0
    ensures !Clears(operator, events, m, account)
    ensures StateAt(operator, events, m).MarkedAt(account) == StateAt(operator, events, m + 1).MarkedAt(account)
  {
  }

  /** The other way round, the time of the last mark stays on record until the mark is cleared. */
  lemma {:induction false} MarkStays(operator: Address, events: seq<Event>, n: nat, account: Address, j: nat)
    requires MarkedSince(operator, events, n, account, j)
    ensures StateAt(operator, events, n).MarkedAt(account) == events[j].now
    decreases n
  {
    if n > j + 1 {
      MarkStays(operator, events, n - 1, account, j);
      UnclearedKeepsMark(operator, events, n - 1, account);
    }
  }

  lemma UnclearedKeepsMark(operator: Address, events: seq<Event>, m: nat, account: Address)
    requires m < |events|
    requires !Marks(operator, events, m, account) && !Clears(operator, events, m, account)
    ensures StateAt(operator, events, m + 1).MarkedAt(account) == StateAt(operator, events, m).MarkedAt(account)
  {
  }

  /**
   Whenever someone other than the operator deleverages an account, it was marked while underwater at
   least 1800 seconds before, and that mark was neither renewed nor cleared in between.
   */
  lemma NonOperatorWaits(operator: Address, events: seq<Event>, n: nat) returns (j: nat)
    requires n < |events| && events[n].TradeEvent? && Accepted(operator, events, n)
    requires events[n].view.sender != StateAt(operator, events, n).operator
    ensures MarkedSince(operator, events, n, events[n].view.maker, j)
    ensures var b := events[j].ledger.BalanceOf(events[n].view.maker);
      BASE * b.Margin() + events[j].price * b.Position() < 0
    ensures events[j].now + 1800 <= events[n].view.now
  {
    j := MarkHasEvent(operator, events, n, events[n].view.maker);
    UnderwaterExactly(events[j].ledger.BalanceOf(events[n].view.maker), events[j].price);
  }
}
