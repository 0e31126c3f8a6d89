/** What calls on the ledger leave alone. */
module Frames {
  import opened Ledger

  lemma {:induction false} SettleAccountsFrame(s: State, newIndex: Index, accounts: seq<Address>)
    requires SettleAccounts(s, newIndex, accounts).Some?
    ensures var s' := SettleAccounts(s, newIndex, accounts).value;
      s' == s.(balances := s'.balances, localIndexes := s'.localIndexes)
    decreases |accounts|
  {
    if accounts != [] {
      SettleAccountsFrame(SettleAccount(s, newIndex, accounts[0]).value, newIndex, accounts[1..]);
    }
  }

  lemma {:induction false} RunTradesFrame(
    s: State, env: Env, sender: Address, accounts: seq<Address>, trades: seq<TradeArg>, flags: set<nat>)
    requires RunTrades(s, env, sender, accounts, trades, flags).Some?
    ensures var s' := RunTrades(s, env, sender, accounts, trades, flags).value;
      s' == s.(balances := s'.balances)
    decreases |trades|
  {
    if trades != [] {
      var (s', flags') := RunTrade(s, env, sender, accounts, trades[0], flags).value;
      RunTradesFrame(s', env, sender, accounts, trades[1..], flags');
    }
  }

  lemma TradeFrame(s: State, env: Env, sender: Address, accounts: seq<Address>, trades: seq<TradeArg>)
    requires Trade(s, env, sender, accounts, trades).Some?
    ensures var s' := Trade(s, env, sender, accounts, trades).value;
      s' == s.(balances := s'.balances, localIndexes := s'.localIndexes, globalIndex := s'.globalIndex)
  {
    var (s1, context) := LoadContext(s, env).value;
    var settled := SettleAccounts(s1, context.index, accounts).value;
    SettleAccountsFrame(s1, context.index, accounts);
    RunTradesFrame(settled, env, sender, accounts, trades, {});
  }

  /** Operators and the final price only change by the calls that are made for it. */
  lemma StepFrame(s: State, step: Step)
    ensures var s' := TakeStep(s, step);
      && (!step.SetGlobalOperatorStep? ==> s'.globalOperators == s.globalOperators)
      && (!step.SetLocalOperatorStep? ==> s'.localOperators == s.localOperators)
      && (!step.EnableFinalSettlementStep? ==>
           && s'.finalSettlementEnabled == s.finalSettlementEnabled
           && s'.finalSettlementPrice == s.finalSettlementPrice)
      && (!step.SetMinCollateralStep? ==> s'.minCollateral == s.minCollateral)
      && s'.self == s.self
  {
    match step
    case DepositStep(env, account, amount) => MarginFrame(s, step);
    case WithdrawStep(env, sender, account, destination, amount) => MarginFrame(s, step);
    case TradeStep(env, sender, accounts, trades) =>
      if TryStep(s, step).Some? {
        TradeFrame(s, env, sender, accounts, trades);
      }
    case _ =>
  }

  lemma MarginFrame(s: State, step: Step)
    requires step.DepositStep? || step.WithdrawStep?
    ensures var s' := TakeStep(s, step);
      s' == s.(balances := s'.balances, localIndexes := s'.localIndexes, globalIndex := s'.globalIndex,
               tokenBalance := s'.tokenBalance)
  {
    if TryStep(s, step).Some? {
      match step
      case DepositStep(env, account, amount) => DepositFrame(s, env, account, amount);
      case WithdrawStep(env, sender, account, to, amount) => WithdrawFrame(s, env, sender, account, to, amount);
    }
  }

  lemma DepositFrame(s: State, env: Env, account: Address, amount: nat)
    requires Deposit(s, env, account, amount).Some?
    ensures var s' := Deposit(s, env, account, amount).value;
      s' == s.(balances := s'.balances, localIndexes := s'.localIndexes, globalIndex := s'.globalIndex,
               tokenBalance := s'.tokenBalance)
  {
  }

  lemma DepositKeepsOperators(s: State, env: Env, account: Address, amount: nat)
    requires Deposit(s, env, account, amount).Some?
    ensures Deposit(s, env, account, amount).value.globalOperators == s.globalOperators
    ensures Deposit(s, env, account, amount).value.localOperators == s.localOperators
  {
    DepositFrame(s, env, account, amount);
  }

  lemma WithdrawFrame(s: State, env: Env, sender: Address, account: Address, to: Address, amount: nat)
    requires Withdraw(s, env, sender, account, to, amount).Some?
    ensures var s' := Withdraw(s, env, sender, account, to, amount).value;
      s' == s.(balances := s'.balances, localIndexes := s'.localIndexes, globalIndex := s'.globalIndex,
               tokenBalance := s'.tokenBalance)
  {
  }

  /** The state before a step of a run that starts with another one. */
  lemma RunFromSecond(s: State, steps: seq<Step>, i: nat)
    requires i < |steps|
    ensures Run(s, steps[..i + 1]) == Run(TakeStep(s, steps[0]), steps[1..][..i])
  {
    assert steps[..i + 1][1..] == steps[1..][..i];
  }
}
