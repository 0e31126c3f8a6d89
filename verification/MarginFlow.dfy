/** Deposits and withdrawals of one account, and how they undo each other. */
module MarginFlow {
  import opened Options
  import opened BalanceMath
  import opened Ledger
  import opened Collateral
  import opened Permissions

  /** The global index and the account's are those of the current block. */
  predicate InBlock(s: State, env: Env, a: Address) {
    s.globalIndex.timestamp == env.now && s.IndexOf(a).timestamp == env.now
  }

  /** Settling again in the same block changes nothing. */
  lemma SettlingTwiceIsNoOp(s: State, env: Env, a: Address)
    requires InBlock(s, env, a)
    ensures LoadContext(s, env) == Some((s, Context(env.price, s.minCollateral, s.globalIndex)))
    ensures SettleAccount(s, s.globalIndex, a) == Some(s)
  {
  }

  /** A deposit settles the account, and then adds exactly its amount to the margin and to the tokens. */
  lemma DepositSettles(s: State, env: Env, a: Address, amount: nat)
    requires Deposit(s, env, a, amount).Some?
    ensures var s1 := Deposit(s, env, a, amount).value;
      && InBlock(s1, env, a) && s1.minCollateral == s.minCollateral && !s1.finalSettlementEnabled
      && s1.tokenBalance == s.tokenBalance + amount && s1.self == s.self
      && Deposit(s, env, a, 0).Some?
      && s1.BalanceOf(a).Margin() == Deposit(s, env, a, 0).value.BalanceOf(a).Margin() + amount
      && s1.BalanceOf(a).GetPosition() == Deposit(s, env, a, 0).value.BalanceOf(a).GetPosition()
      && forall o: Address :: o != a ==> s1.BalanceOf(o) == s.BalanceOf(o)
  {
  }

  /** A deposit is accepted exactly if the account can be settled and its margin with the amount fits. */
  lemma DepositIsAcceptedExactly(s: State, env: Env, a: Address, amount: nat)
    ensures Deposit(s, env, a, 0).Some? <==>
      && !s.finalSettlementEnabled && LoadContext(s, env).Some?
      && SettleAccount(LoadContext(s, env).value.0, LoadContext(s, env).value.1.index, a).Some?
    ensures Deposit(s, env, a, amount).Some? <==>
      Deposit(s, env, a, 0).Some? && Deposit(s, env, a, 0).value.BalanceOf(a).Margin() + amount < UINT120
  {
  }

  /** A withdrawal by a settled account moves its margin and the tokens, and nothing else. */
  lemma WithdrawInBlock(s: State, env: Env, sender: Address, a: Address, to: Address, amount: nat)
    requires InBlock(s, env, a) && to != s.self
    requires Withdraw(s, env, sender, a, to, amount).Some?
    ensures var s' := Withdraw(s, env, sender, a, to, amount).value;
      && s' == s.(tokenBalance := s'.tokenBalance, balances := s.balances[a := s'.BalanceOf(a)])
      && s'.tokenBalance == s.tokenBalance - amount
      && s'.BalanceOf(a).Margin() == s.BalanceOf(a).Margin() - amount
      && s'.BalanceOf(a).Position() == s.BalanceOf(a).Position()
  {
  }

  /** In the block of the global index, a deposit of nothing is a settlement of the account. */
  lemma EmptyDepositSettles(s: State, env: Env, a: Address)
    requires s.globalIndex.timestamp == env.now
    requires Deposit(s, env, a, 0).Some?
    ensures SettleAccount(s, s.globalIndex, a).Some?
    ensures var s' := Deposit(s, env, a, 0).value;
      var settled := SettleAccount(s, s.globalIndex, a).value;
      && s'.BalanceOf(a).Margin() == settled.BalanceOf(a).Margin()
      && s'.BalanceOf(a).Position() == settled.BalanceOf(a).Position()
      && (s.IndexOf(a).timestamp == env.now ==> settled == s)
  {
  }

  /**
   A withdrawal is accepted exactly if the account can be settled, the sender may act for it, the contract
   has the tokens, and what remains meets the collateral rule at the oracle's price.
   */
  lemma WithdrawIsAcceptedExactly(s: State, env: Env, sender: Address, a: Address, to: Address, amount: nat)
    ensures Withdraw(s, env, sender, a, to, amount).Some? <==>
      && Deposit(s, env, a, 0).Some?
      && MayActFor(s, a, sender)
      && amount <= s.tokenBalance
      && var settled := Deposit(s, env, a, 0).value.BalanceOf(a);
         && -UINT120 < settled.Margin() - amount
         && MeetsRequirement(settled.Margin() - amount, settled.Position(), env.price, s.minCollateral)
  {
    var settled := Deposit(s, env, a, 0);
    if settled.Some? {
      var (s1, context) := LoadContext(s, env).value;
      var b := SettleAccount(s1, context.index, a).value.BalanceOf(a);
      DepositSettles(s, env, a, 0);
      var after := SubFromMargin(b, amount);
      if after.Some? {
        CollateralizedExactly(after.value, env.price, s.minCollateral);
      }
    }
  }

  /**
   Taking a deposit out again in the same block is allowed exactly if the settled account met the collateral
   rule, and then leaves the tokens and all balances as settlement alone would have.
   */
  lemma DepositRoundTrip(s: State, env: Env, a: Address, to: Address, amount: nat)
    requires to != s.self && Deposit(s, env, a, amount).Some?
    ensures Deposit(s, env, a, 0).Some?
    ensures var settled, s1 := Deposit(s, env, a, 0).value, Deposit(s, env, a, amount).value;
      var s2 := Withdraw(s1, env, a, a, to, amount);
      && (s2.Some? <==> IsSafe(settled.BalanceOf(a), env.price, s.minCollateral))
      && (s2.Some? ==>
           && s2.value.tokenBalance == s.tokenBalance
           && s2.value.BalanceOf(a).Margin() == settled.BalanceOf(a).Margin()
           && s2.value.BalanceOf(a).Position() == settled.BalanceOf(a).Position()
           && forall o: Address :: o != a ==> s2.value.BalanceOf(o) == s.BalanceOf(o))
  {
    var settled, s1 := Deposit(s, env, a, 0).value, Deposit(s, env, a, amount).value;
    DepositSettles(s, env, a, amount);
    DepositSettles(s, env, a, 0);
    SettlingTwiceIsNoOp(s1, env, a);
    DepositSettles(s1, env, a, 0);
    WithdrawIsAcceptedExactly(s1, env, a, a, to, amount);
    if Withdraw(s1, env, a, a, to, amount).Some? {
      WithdrawInBlock(s1, env, a, a, to, amount);
    }
  }
}
