/** Chains of liquidations and deleveragings of one maker within a batch. */
module TakeOverChain {
  import opened Options
  import opened BalanceMath
  import opened Ledger
  import opened Collateral
  import opened TakeOver
  import opened BatchDiscipline
  import Liquidation

  /** Where a chain can take the maker: nowhere yet, to zero, or to no worse a ratio. */
  ghost predicate Reachable(initial: Balance, current: Balance, price: nat) {
    current == initial || current == EMPTY_BALANCE || NoWorse(initial, current, price)
  }

  lemma ReachableIsAllowed(initial: Balance, current: Balance, price: nat, minCollateral: nat)
    requires Reachable(initial, current, price)
    requires PositiveValue(initial, price) > 0
    ensures AccountAllowed(initial, current, price, minCollateral)
  {
    AllowedExactly(initial, current, price, minCollateral);
    assert GetPositiveAndNegativeValue(EMPTY_BALANCE, price) == (0, 0);
  }

  lemma TakeOverExtendsChain(
    initial: Balance, current: Balance, next: Balance, amount: nat, flags: set<nat>, price: nat)
    requires price > 0 && PositiveValue(initial, price) > 0
    requires Reachable(initial, current, price)
    requires NegativeValue(current, price) > 0 && !BothNegative(current)
    requires 0 < current.position && amount <= current.position
    requires AfterTakeOver(current, amount, flags) == Some(next)
    ensures Reachable(initial, next, price)
  {
    assert GetPositiveAndNegativeValue(EMPTY_BALANCE, price) == (0, 0);
    AfterTakeOverShape(current, amount, flags);
    if amount < current.position {
      PartialIsNoWorse(current, amount, flags, price);
      if current != initial {
        RatioTransitive(initial, current, next, price);
      }
    }
  }

  /** Both traders hand on at most the maker's position, if it has debt, with the margin that belongs to it. */
  lemma ExecuteTakesOver(kind: RepositoryTrade, view: TraderView)
    requires !kind.OrderTrade? && kind.Execute(view).Some?
    ensures var maker := view.state.BalanceOf(view.maker);
      var r := kind.Execute(view).value;
      && NegativeValue(maker, view.price) > 0 && !BothNegative(maker)
      && 0 < maker.position && r.positionAmount <= maker.position
      && MoveBalance(maker, r, r.isBuy) == AfterTakeOver(maker, r.positionAmount, r.traderFlags)
  {
    if kind.LiquidationTrade? {
      Liquidation.UndercollateralizedHasDebt(
        view.state.BalanceOf(view.maker), view.price, view.state.minCollateral);
    }
  }

  /** Every trade of the list either takes over a part of `m`, in one of the two ways, or does not involve `m`. */
  ghost predicate OnlyTakeOvers(
    m: Address, accounts: seq<Address>, trades: seq<TradeArg>, takeOvers: seq<Option<RepositoryTrade>>)
  {
    && |takeOvers| == |trades|
    && forall i :: 0 <= i < |trades| && trades[i].makerIndex < |accounts| && trades[i].takerIndex < |accounts| ==>
      if takeOvers[i].Some? then
        && !takeOvers[i].value.OrderTrade?
        && accounts[trades[i].makerIndex] == m
        && forall view :: trades[i].execute(view) == takeOvers[i].value.Execute(view)
      else
        accounts[trades[i].makerIndex] != m && accounts[trades[i].takerIndex] != m
  }

  lemma OneTradeOfChain(
    initial: Balance, s: State, env: Env, sender: Address, accounts: seq<Address>, arg: TradeArg, flags: set<nat>,
    m: Address, takeOver: Option<RepositoryTrade>)
    requires env.price > 0 && PositiveValue(initial, env.price) > 0
    requires Reachable(initial, s.BalanceOf(m), env.price)
    requires OnlyTakeOvers(m, accounts, [arg], [takeOver])
    requires RunTrade(s, env, sender, accounts, arg, flags).Some?
    ensures Reachable(initial, RunTrade(s, env, sender, accounts, arg, flags).value.0.BalanceOf(m), env.price)
  {
    var (s', _) := RunTrade(s, env, sender, accounts, arg, flags).value;
    var maker, taker := accounts[arg.makerIndex], accounts[arg.takerIndex];
    assert [arg][0] == arg && [takeOver][0] == takeOver;
    if takeOver.Some? && maker != taker {
      var view := TraderView(s, env.now, sender, maker, taker, env.price, flags);
      assert arg.execute(view) == takeOver.value.Execute(view);
      ExecuteTakesOver(takeOver.value, view);
      var r := takeOver.value.Execute(view).value;
      TakeOverExtendsChain(
        initial, s.BalanceOf(m), s'.BalanceOf(m), r.positionAmount, r.traderFlags, env.price);
    }
  }

  /** After any number of take-overs of one maker, among other trades, the maker passes the final check. */
  lemma {:induction false} ChainIsAccepted(
    initial: Balance, s: State, env: Env, sender: Address, accounts: seq<Address>, trades: seq<TradeArg>,
    flags: set<nat>, m: Address, takeOvers: seq<Option<RepositoryTrade>>, minCollateral: nat)
    requires env.price > 0 && PositiveValue(initial, env.price) > 0
    requires Reachable(initial, s.BalanceOf(m), env.price)
    requires OnlyTakeOvers(m, accounts, trades, takeOvers)
    requires RunTrades(s, env, sender, accounts, trades, flags).Some?
    ensures AccountAllowed(
      initial, RunTrades(s, env, sender, accounts, trades, flags).value.BalanceOf(m), env.price, minCollateral)
    decreases |trades|
  {
    if trades == [] {
      ReachableIsAllowed(initial, s.BalanceOf(m), env.price, minCollateral);
    } else {
      var (s', flags') := RunTrade(s, env, sender, accounts, trades[0], flags).value;
      OneTradeOfChain(initial, s, env, sender, accounts, trades[0], flags, m, takeOvers[0]);
      ChainIsAccepted(initial, s', env, sender, accounts, trades[1..], flags', m, takeOvers[1..], minCollateral);
    }
  }
}
