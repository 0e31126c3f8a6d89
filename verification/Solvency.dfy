/** The contract holds enough tokens for what its accounts are owed, after any run of calls. */
module Solvency {
  import opened SignedMath
  import opened BaseMath
  import opened BalanceMath
  import opened Ledger
  import opened Sums

  /** What an account is owed in units of 1/BASE token, with the funding it has not yet settled. */
  ghost function Equity(s: State, price: int, a: Address): int {
    Worth(s.BalanceOf(a).Margin(), s.BalanceOf(a).Position(), s.globalIndex.ToInt() - s.IndexOf(a).ToInt(), price)
  }

  /** `lag` is the funding per unit of position that has accumulated since the account was last settled. */
  ghost function Worth(margin: int, position: int, lag: int, price: int): int {
    BASE * margin - lag * position + price * position
  }

  ghost function EquityOf(s: State, price: int): Address -> int {
    (a: Address) => Equity(s, price, a)
  }

  ghost function PositionOf(s: State): Address -> int {
    (a: Address) => s.BalanceOf(a).Position()
  }

  /** Positions are worth the final price once it is fixed. Before that they cancel out at any price. */
  ghost function SettlementPrice(s: State): int {
    if s.finalSettlementEnabled then s.finalSettlementPrice else 0
  }

  ghost predicate Solvent(s: State) {
    BASE * s.tokenBalance >= Total(EquityOf(s, SettlementPrice(s)))
  }

  ghost predicate PositionsCancel(s: State) {
    !s.finalSettlementEnabled ==> Total(PositionOf(s)) == 0
  }

  /** No cached index is ahead of the global one, and one with the same timestamp has the same value. */
  ghost predicate IndexesCoherent(s: State) {
    forall a: Address ::
      && s.IndexOf(a).timestamp <= s.globalIndex.timestamp
      && (s.IndexOf(a).timestamp == s.globalIndex.timestamp ==> s.IndexOf(a).ToInt() == s.globalIndex.ToInt())
  }

  ghost predicate Inv(s: State) {
    Solvent(s) && PositionsCancel(s) && IndexesCoherent(s)
  }

  // ---------- Settlement ----------

  /** Both roundings amount to one: the margin moves by the floor of the exact payment. */
  lemma FundingIsFloor(b: Balance, diff: Int)
    requires ApplyFunding(b, diff).Some?
    ensures var settled := ApplyFunding(b, diff).value;
      && settled.GetPosition() == b.GetPosition()
      && settled.Margin() == b.Margin() + FundingPayment(diff.ToInt(), b.Position())
  {
    PaymentRounding(diff, b.GetPosition());
  }

  /** The signed payment to an account: positive funding means longs pay shorts. */
  function FundingPayment(diff: int, position: int): int {
    (-diff * position) / BASE
  }

  lemma PaymentRounding(diff: Int, position: Int)
    ensures FundingPayment(diff.ToInt(), position.ToInt()) ==
      if diff.isPositive != position.isPositive then BaseMul(diff.value, position.value)
      else -(BaseMulRoundUp(diff.value, position.value) as int)
  {
  }

  /** After settlement the account's cached index has the global value. */
  lemma SettleAccountEffect(s: State, a: Address)
    requires IndexesCoherent(s)
    requires SettleAccount(s, s.globalIndex, a).Some?
    ensures var s' := SettleAccount(s, s.globalIndex, a).value;
      && s' == s.(balances := s'.balances, localIndexes := s'.localIndexes)
      && (forall o: Address :: o != a ==> s'.BalanceOf(o) == s.BalanceOf(o) && s'.IndexOf(o) == s.IndexOf(o))
      && s'.BalanceOf(a).GetPosition() == s.BalanceOf(a).GetPosition()
      && s'.IndexOf(a).ToInt() == s.globalIndex.ToInt()
      && IndexesCoherent(s')
  {
  }

  lemma WorthSettled(margin: int, position: int, lag: int, price: int)
    ensures var settled := margin + FundingPayment(lag, position);
      Worth(margin, position, lag, price) - BASE < Worth(settled, position, 0, price)
        <= Worth(margin, position, lag, price)
  {
  }

  /** How settlement changes the settled account. */
  lemma SettledBalance(s: State, a: Address)
    requires IndexesCoherent(s)
    requires SettleAccount(s, s.globalIndex, a).Some?
    ensures var b, b' := s.BalanceOf(a), SettleAccount(s, s.globalIndex, a).value.BalanceOf(a);
      && b'.Position() == b.Position()
      && b'.Margin() == b.Margin() + FundingPayment(s.globalIndex.ToInt() - s.IndexOf(a).ToInt(), b.Position())
  {
    var b := s.BalanceOf(a);
    if s.IndexOf(a).timestamp != s.globalIndex.timestamp && b.position != 0 {
      FundingIsFloor(b, IndexDiff(s.globalIndex, s.IndexOf(a)));
    }
  }

  /** An account can be settled exactly if its margin with the payment still fits. */
  lemma SettlementIsAcceptedExactly(s: State, a: Address)
    requires IndexesCoherent(s)
    ensures var b := s.BalanceOf(a);
      var payment := FundingPayment(s.globalIndex.ToInt() - s.IndexOf(a).ToInt(), b.Position());
      SettleAccount(s, s.globalIndex, a).Some? <==> -UINT120 < b.Margin() + payment < UINT120
  {
    var b, diff := s.BalanceOf(a), IndexDiff(s.globalIndex, s.IndexOf(a));
    PaymentRounding(diff, b.GetPosition());
  }

  /** Settling never adds to what an account is owed, and takes less than one token unit. */
  lemma SettleAccountEquity(s: State, price: int, a: Address)
    requires IndexesCoherent(s)
    requires SettleAccount(s, s.globalIndex, a).Some?
    ensures var s' := SettleAccount(s, s.globalIndex, a).value;
      && Equity(s, price, a) - BASE < Equity(s', price, a) <= Equity(s, price, a)
      && forall o: Address :: o != a ==> Equity(s', price, o) == Equity(s, price, o)
  {
    SettleAccountEffect(s, a);
    SettledBalance(s, a);
    WorthSettled(s.BalanceOf(a).Margin(), s.BalanceOf(a).Position(),
      s.globalIndex.ToInt() - s.IndexOf(a).ToInt(), price);
  }

  /** Facts that settlement hands on to the rest of a call. */
  ghost predicate SettlesTo(s: State, s': State) {
    && s' == s.(balances := s'.balances, localIndexes := s'.localIndexes)
    && IndexesCoherent(s')
    && Total(PositionOf(s')) == Total(PositionOf(s))
    && forall price: int :: Total(EquityOf(s', price)) <= Total(EquityOf(s, price))
  }

  lemma SettleAccountKeeps(s: State, a: Address)
    requires IndexesCoherent(s)
    requires SettleAccount(s, s.globalIndex, a).Some?
    ensures SettlesTo(s, SettleAccount(s, s.globalIndex, a).value)
  {
    var s' := SettleAccount(s, s.globalIndex, a).value;
    SettleAccountEffect(s, a);
    TotalUpdate(PositionOf(s), PositionOf(s'), a);
    forall price: int ensures Total(EquityOf(s', price)) <= Total(EquityOf(s, price)) {
      SettleAccountEquity(s, price, a);
      TotalUpdate(EquityOf(s, price), EquityOf(s', price), a);
    }
  }

  /** Every account in the list ends up settled. */
  lemma {:induction false} SettleAccountsKeeps(s: State, accounts: seq<Address>)
    requires IndexesCoherent(s)
    requires SettleAccounts(s, s.globalIndex, accounts).Some?
    ensures var s' := SettleAccounts(s, s.globalIndex, accounts).value;
      && SettlesTo(s, s')
      && (forall a: Address :: s.IndexOf(a).ToInt() == s.globalIndex.ToInt() ==>
          s'.IndexOf(a).ToInt() == s.globalIndex.ToInt())
      && forall i :: 0 <= i < |accounts| ==> s'.IndexOf(accounts[i]).ToInt() == s.globalIndex.ToInt()
    decreases |accounts|
  {
    if accounts != [] {
      var a := accounts[0];
      var s1 := SettleAccount(s, s.globalIndex, a).value;
      SettleAccountEffect(s, a);
      SettleAccountKeeps(s, a);
      SettleAccountsKeeps(s1, accounts[1..]);
      var s' := SettleAccounts(s, s.globalIndex, accounts).value;
      forall i | 0 <= i < |accounts| ensures s'.IndexOf(accounts[i]).ToInt() == s.globalIndex.ToInt() {
        if i > 0 {
          assert accounts[i] == accounts[1..][i - 1];
        }
      }
    }
  }

  // ---------- The global index ----------

  /** The index moves by the funding on the price, rounded towards zero, and at most once in a block. */
  lemma IndexMovesByFunding(s: State, env: Env)
    requires LoadContext(s, env).Some?
    ensures var s' := LoadContext(s, env).value.0;
      var moved := s'.globalIndex.ToInt() - s.globalIndex.ToInt();
      var exact := env.funding.ToInt() * env.price;
      && s'.globalIndex.timestamp == env.now >= s.globalIndex.timestamp
      && (env.now == s.globalIndex.timestamp ==> moved == 0)
      && (env.now > s.globalIndex.timestamp ==>
           if env.funding.isPositive then moved * BASE <= exact < moved * BASE + BASE
           else moved * BASE - BASE < exact <= moved * BASE)
  {
  }

  /** The index can be updated exactly if time has not run back, and time and the moved index fit their widths. */
  lemma IndexUpdateIsAcceptedExactly(s: State, env: Env)
    ensures var payment := BaseMul(env.funding.value, env.price);
      var moved := s.globalIndex.ToInt() + if env.funding.isPositive then payment else 0 - payment;
      LoadContext(s, env).Some? <==>
        || env.now == s.globalIndex.timestamp
        || (s.globalIndex.timestamp < env.now < UINT32 && -UINT128 < moved < UINT128)
  {
  }

  /** While positions cancel, moving the global index moves no value in or out. */
  lemma LoadContextKeeps(s: State, env: Env)
    requires Inv(s) && !s.finalSettlementEnabled
    requires LoadContext(s, env).Some?
    ensures var (s', context) := LoadContext(s, env).value;
      Inv(s') && context.index == s'.globalIndex && s' == s.(globalIndex := s'.globalIndex)
  {
    var (s', _) := LoadContext(s, env).value;
    var moved := s'.globalIndex.ToInt() - s.globalIndex.ToInt();
    forall a: Address ensures Equity(s', 0, a) == Equity(s, 0, a) + (-moved) * PositionOf(s)(a) {
      var b, lag := s.BalanceOf(a), s.globalIndex.ToInt() - s.IndexOf(a).ToInt();
      IndexMove(b.Margin(), b.Position(), lag, moved);
    }
    SumLinear(EquityOf(s, 0), EquityOf(s', 0), PositionOf(s), -moved, Everyone());
    TotalEqual(PositionOf(s), PositionOf(s'));
    SameIndexes(s, s');
  }

  lemma IndexMove(margin: int, position: int, lag: int, moved: int)
    ensures Worth(margin, position, lag + moved, 0) == Worth(margin, position, lag, 0) + (-moved) * position
  {
  }

  /** While positions cancel, the total equity is the same at every price. */
  lemma PriceIrrelevant(s: State, price: int)
    requires Total(PositionOf(s)) == 0
    ensures Total(EquityOf(s, price)) == Total(EquityOf(s, 0))
  {
    forall a: Address ensures EquityOf(s, price)(a) == EquityOf(s, 0)(a) + price * PositionOf(s)(a) {
    }
    SumLinear(EquityOf(s, 0), EquityOf(s, price), PositionOf(s), price, Everyone());
  }

  // ---------- One account's margin ----------

  /** The effect of writing a new balance for a settled account. */
  lemma WriteBalance(s: State, price: int, a: Address, b: Balance)
    requires s.IndexOf(a).ToInt() == s.globalIndex.ToInt()
    ensures var s' := s.(balances := s.balances[a := b]);
      && Total(PositionOf(s')) == Total(PositionOf(s)) + b.Position() - s.BalanceOf(a).Position()
      && Total(EquityOf(s', price)) == Total(EquityOf(s, price))
           + Worth(b.Margin(), b.Position(), 0, price)
           - Worth(s.BalanceOf(a).Margin(), s.BalanceOf(a).Position(), 0, price)
      && (forall o: Address :: s'.IndexOf(o) == s.IndexOf(o))
      && (forall o: Address :: o != a ==> s'.BalanceOf(o) == s.BalanceOf(o))
  {
    var s' := s.(balances := s.balances[a := b]);
    TotalUpdate(PositionOf(s), PositionOf(s'), a);
    TotalUpdate(EquityOf(s, price), EquityOf(s', price), a);
  }

  lemma SameIndexes(s: State, s': State)
    requires s'.localIndexes == s.localIndexes
    ensures forall a: Address :: s'.IndexOf(a) == s.IndexOf(a)
  {
  }

  /** Equity depends on balances and indexes only. */
  lemma OtherFields(s: State, s': State, price: int)
    requires s'.balances == s.balances && s'.localIndexes == s.localIndexes && s'.globalIndex == s.globalIndex
    ensures Total(EquityOf(s', price)) == Total(EquityOf(s, price))
    ensures Total(PositionOf(s')) == Total(PositionOf(s))
    ensures IndexesCoherent(s) ==> IndexesCoherent(s')
  {
    SameIndexes(s, s');
    TotalEqual(EquityOf(s, price), EquityOf(s', price));
    TotalEqual(PositionOf(s), PositionOf(s'));
  }

  // ---------- Every step ----------

  lemma DepositKeeps(s: State, env: Env, account: Address, amount: nat)
    requires Inv(s) && Deposit(s, env, account, amount).Some?
    ensures Inv(Deposit(s, env, account, amount).value)
  {
    LoadContextKeeps(s, env);
    var (s1, _) := LoadContext(s, env).value;
    SettleAccountEffect(s1, account);
    SettleAccountKeeps(s1, account);
    var s2 := SettleAccount(s1, s1.globalIndex, account).value;
    var balance := AddToMargin(s2.BalanceOf(account), amount).value;
    WriteBalance(s2, 0, account, balance);
    OtherFields(s2.(balances := s2.balances[account := balance]), Deposit(s, env, account, amount).value, 0);
  }

  lemma WithdrawKeeps(s: State, env: Env, sender: Address, account: Address, destination: Address, amount: nat)
    requires Inv(s) && Withdraw(s, env, sender, account, destination, amount).Some?
    ensures Inv(Withdraw(s, env, sender, account, destination, amount).value)
  {
    LoadContextKeeps(s, env);
    var (s1, _) := LoadContext(s, env).value;
    SettleAccountEffect(s1, account);
    SettleAccountKeeps(s1, account);
    var s2 := SettleAccount(s1, s1.globalIndex, account).value;
    var balance := SubFromMargin(s2.BalanceOf(account), amount).value;
    WriteBalance(s2, 0, account, balance);
    OtherFields(s2.(balances := s2.balances[account := balance]),
      Withdraw(s, env, sender, account, destination, amount).value, 0);
  }

  /** What a trade gives one party it takes from the other, whatever the trader returned. */
  lemma ApplyResultKeeps(s: State, maker: Address, taker: Address, r: TradeResult)
    requires s.IndexOf(maker).ToInt() == s.IndexOf(taker).ToInt() == s.globalIndex.ToInt()
    requires ApplyResult(s, maker, taker, r).Some?
    ensures var s' := ApplyResult(s, maker, taker, r).value;
      && s' == s.(balances := s'.balances)
      && Total(PositionOf(s')) == Total(PositionOf(s))
      && Total(EquityOf(s', 0)) == Total(EquityOf(s, 0))
  {
    if maker != taker {
      var (makerBalance, takerBalance) := MoveBoth(s.BalanceOf(maker), s.BalanceOf(taker), r).value;
      ApplyResultMoves(s, maker, taker, r);
      WriteBalance(s, 0, maker, makerBalance);
      WriteBalance(s.(balances := s.balances[maker := makerBalance]), 0, taker, takerBalance);
    }
  }

  lemma {:induction false} RunTradesKeeps(
    s: State, env: Env, sender: Address, accounts: seq<Address>, trades: seq<TradeArg>, flags: set<nat>)
    requires forall i :: 0 <= i < |accounts| ==> s.IndexOf(accounts[i]).ToInt() == s.globalIndex.ToInt()
    requires RunTrades(s, env, sender, accounts, trades, flags).Some?
    ensures var s' := RunTrades(s, env, sender, accounts, trades, flags).value;
      && s' == s.(balances := s'.balances)
      && Total(PositionOf(s')) == Total(PositionOf(s))
      && Total(EquityOf(s', 0)) == Total(EquityOf(s, 0))
    decreases |trades|
  {
    if trades != [] {
      var arg := trades[0];
      var maker, taker := accounts[arg.makerIndex], accounts[arg.takerIndex];
      var r := arg.execute(TraderView(s, env.now, sender, maker, taker, env.price, flags)).value;
      ApplyResultKeeps(s, maker, taker, r);
      var (s1, flags1) := RunTrade(s, env, sender, accounts, arg, flags).value;
      RunTradesKeeps(s1, env, sender, accounts, trades[1..], flags1);
    }
  }

  lemma BatchKeeps(s: State, env: Env, sender: Address, accounts: seq<Address>, trades: seq<TradeArg>)
    requires Inv(s) && ExecuteBatch(s, env, sender, accounts, trades).Some?
    ensures Inv(ExecuteBatch(s, env, sender, accounts, trades).value.1)
  {
    LoadContextKeeps(s, env);
    var (s1, _) := LoadContext(s, env).value;
    SettleAccountsKeeps(s1, accounts);
    var s2 := SettleAccounts(s1, s1.globalIndex, accounts).value;
    RunTradesKeeps(s2, env, sender, accounts, trades, {});
    var s3 := RunTrades(s2, env, sender, accounts, trades, {}).value;
    SameIndexes(s2, s3);
  }

  lemma TradeKeeps(s: State, env: Env, sender: Address, accounts: seq<Address>, trades: seq<TradeArg>)
    requires Inv(s) && Trade(s, env, sender, accounts, trades).Some?
    ensures Inv(Trade(s, env, sender, accounts, trades).value)
  {
    BatchKeeps(s, env, sender, accounts, trades);
  }

  lemma EnableFinalSettlementKeeps(s: State, env: Env, lower: nat, upper: nat)
    requires Inv(s) && EnableFinalSettlement(s, env, lower, upper).Some?
    ensures Inv(EnableFinalSettlement(s, env, lower, upper).value)
  {
    LoadContextKeeps(s, env);
    var (s1, _) := LoadContext(s, env).value;
    var s' := EnableFinalSettlement(s, env, lower, upper).value;
    PriceIrrelevant(s1, s'.finalSettlementPrice);
    OtherFields(s1, s', s'.finalSettlementPrice);
  }

  /** What is paid out and what is left to the account together are no more than it was worth. */
  lemma PayOutEffect(s: State, caller: Address)
    requires PayOut(s, caller).Some?
    ensures var (s', amount) := PayOut(s, caller).value;
      var (b, b') := (s.BalanceOf(caller), s'.BalanceOf(caller));
      && (s' == s || s' == s.(balances := s.balances[caller := b'], tokenBalance := s'.tokenBalance))
      && s'.tokenBalance >= s.tokenBalance - amount
      && Worth(b'.Margin(), b'.Position(), 0, s.finalSettlementPrice) + BASE * amount
           <= Worth(b.Margin(), b.Position(), 0, s.finalSettlementPrice)
  {
  }

  lemma PayOutKeeps(s: State, caller: Address)
    requires Inv(s) && s.finalSettlementEnabled && s.IndexOf(caller).ToInt() == s.globalIndex.ToInt()
    requires PayOut(s, caller).Some?
    ensures Inv(PayOut(s, caller).value.0)
  {
    PayOutEffect(s, caller);
    var (s', amount) := PayOut(s, caller).value;
    var price := s.finalSettlementPrice;
    if s' != s {
      var written := s.(balances := s.balances[caller := s'.BalanceOf(caller)]);
      WriteBalance(s, price, caller, s'.BalanceOf(caller));
      OtherFields(written, s', price);
    }
  }

  lemma WithdrawFinalSettlementKeeps(s: State, caller: Address)
    requires Inv(s) && WithdrawFinalSettlement(s, caller).Some?
    ensures Inv(WithdrawFinalSettlement(s, caller).value.0)
  {
    SettleAccountEffect(s, caller);
    SettleAccountKeeps(s, caller);
    PayOutKeeps(SettleAccount(s, s.globalIndex, caller).value, caller);
  }

  lemma StepKeepsInv(s: State, step: Step)
    requires Inv(s)
    ensures Inv(TakeStep(s, step))
  {
    if TryStep(s, step).Some? {
      match step
      case DepositStep(env, account, amount) => DepositKeeps(s, env, account, amount);
      case WithdrawStep(env, sender, account, destination, amount) =>
        WithdrawKeeps(s, env, sender, account, destination, amount);
      case TradeStep(env, sender, accounts, trades) => TradeKeeps(s, env, sender, accounts, trades);
      case EnableFinalSettlementStep(env, lower, upper) => EnableFinalSettlementKeeps(s, env, lower, upper);
      case WithdrawFinalSettlementStep(caller) => WithdrawFinalSettlementKeeps(s, caller);
      case _ => OtherFields(s, TakeStep(s, step), SettlementPrice(s));
    }
  }

  lemma InitialInv(self: Address, now: nat, minCollateral: nat)
    ensures Inv(Initial(self, now, minCollateral))
  {
    var s := Initial(self, now, minCollateral);
    SumZero(EquityOf(s, 0), Everyone());
    SumZero(PositionOf(s), Everyone());
  }

  lemma {:induction false} RunKeepsInv(s: State, steps: seq<Step>)
    requires Inv(s)
    ensures Inv(Run(s, steps))
    decreases |steps|
  {
    if steps != [] {
      StepKeepsInv(s, steps[0]);
      RunKeepsInv(TakeStep(s, steps[0]), steps[1..]);
    }
  }

  /** From deployment on, whatever calls are made and whatever oracle, funder and traders answer. */
  lemma AlwaysSolvent(self: Address, now: nat, minCollateral: nat, steps: seq<Step>)
    ensures var s := Run(Initial(self, now, minCollateral), steps);
      && BASE * s.tokenBalance >= Total(EquityOf(s, SettlementPrice(s)))
      && (!s.finalSettlementEnabled ==>
          Total(PositionOf(s)) == 0 && forall price: int :: BASE * s.tokenBalance >= Total(EquityOf(s, price)))
      && forall a: Address :: s.IndexOf(a).timestamp == s.globalIndex.timestamp ==>
          s.IndexOf(a).ToInt() == s.globalIndex.ToInt()
  {
    InitialInv(self, now, minCollateral);
    RunKeepsInv(Initial(self, now, minCollateral), steps);
    var s := Run(Initial(self, now, minCollateral), steps);
    if !s.finalSettlementEnabled {
      forall price: int ensures BASE * s.tokenBalance >= Total(EquityOf(s, price)) {
        PriceIrrelevant(s, price);
      }
    }
  }
}
