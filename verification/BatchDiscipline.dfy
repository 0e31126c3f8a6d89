/** Batches made of the repository's own traders. */
module BatchDiscipline {
  import opened Options
  import opened Ledger
  import TakeOver
  import Liquidation
  import Deleveraging
  import Orders

  /** One of the deployed traders, in the state it has when it is called. */
  datatype RepositoryTrade =
    | LiquidationTrade(liquidation: TakeOver.TradeData)
    | DeleveragingTrade(marks: Deleveraging.State, deleveraging: TakeOver.TradeData)
    | OrderTrade(market: Orders.Market, orders: Orders.State, order: Orders.TradeData)
  {
    function Execute(view: TraderView): Option<TradeResult> {
      match this
      case LiquidationTrade(data) => Liquidation.Execute(data, view)
      case DeleveragingTrade(marks, data) => var (_, r) :- Deleveraging.Execute(marks, data, view); Some(r)
      case OrderTrade(market, orders, data) => var (_, r) :- Orders.FillOrder(market, orders, data, view); Some(r)
    }
  }

  ghost predicate BuiltFrom(trades: seq<TradeArg>, kinds: seq<RepositoryTrade>) {
    |kinds| == |trades| &&
    forall i :: 0 <= i < |trades| ==> forall view :: trades[i].execute(view) == kinds[i].Execute(view)
  }

  /** Once any trade of the batch has run, no deleveraging is accepted. */
  lemma {:induction false} NoDeleveragingAfter(
    s: State, env: Env, sender: Address, accounts: seq<Address>, trades: seq<TradeArg>, flags: set<nat>,
    kinds: seq<RepositoryTrade>)
    requires BuiltFrom(trades, kinds)
    requires flags != {}
    requires RunTrades(s, env, sender, accounts, trades, flags).Some?
    ensures forall i :: 0 <= i < |kinds| ==> !kinds[i].DeleveragingTrade?
    decreases |trades|
  {
    if trades != [] {
      var arg := trades[0];
      var (s', flags') := RunTrade(s, env, sender, accounts, arg, flags).value;
      var view := TraderView(
        s, env.now, sender, accounts[arg.makerIndex], accounts[arg.takerIndex], env.price, flags);
      assert arg.execute(view) == kinds[0].Execute(view);
      NoDeleveragingAfter(s', env, sender, accounts, trades[1..], flags', kinds[1..]);
      forall i | 0 <= i < |kinds| ensures !kinds[i].DeleveragingTrade? {
        if i > 0 {
          assert kinds[i] == kinds[1..][i - 1];
        }
      }
    }
  }

  /** In an accepted batch there is at most one deleveraging, and it comes first. */
  lemma DeleveragingOnlyFirst(
    s: State, env: Env, sender: Address, accounts: seq<Address>, trades: seq<TradeArg>, kinds: seq<RepositoryTrade>,
    i: nat)
    requires BuiltFrom(trades, kinds)
    requires Trade(s, env, sender, accounts, trades).Some?
    requires i < |kinds| && kinds[i].DeleveragingTrade?
    ensures i == 0
    ensures forall j :: 0 < j < |kinds| ==> !kinds[j].DeleveragingTrade?
  {
    var (settled, _, _) := ExecuteBatch(s, env, sender, accounts, trades).value;
    FirstTradeSetsFlags(settled, env, sender, accounts, trades, kinds);
  }

  lemma FirstTradeSetsFlags(
    s: State, env: Env, sender: Address, accounts: seq<Address>, trades: seq<TradeArg>, kinds: seq<RepositoryTrade>)
    requires BuiltFrom(trades, kinds) && trades != []
    requires RunTrades(s, env, sender, accounts, trades, {}).Some?
    ensures forall j :: 0 < j < |kinds| ==> !kinds[j].DeleveragingTrade?
  {
    var arg := trades[0];
    var (s', flags') := RunTrade(s, env, sender, accounts, arg, {}).value;
    var view := TraderView(s, env.now, sender, accounts[arg.makerIndex], accounts[arg.takerIndex], env.price, {});
    assert arg.execute(view) == kinds[0].Execute(view);
    FlagsNonEmpty(kinds[0], view);
    NoDeleveragingAfter(s', env, sender, accounts, trades[1..], flags', kinds[1..]);
    forall j | 0 < j < |kinds| ensures !kinds[j].DeleveragingTrade? {
      assert kinds[j] == kinds[1..][j - 1];
    }
  }

  lemma FlagsNonEmpty(kind: RepositoryTrade, view: TraderView)
    requires kind.Execute(view).Some?
    ensures kind.Execute(view).value.traderFlags != {}
  {
  }
}
