/** Who may act for an account, and which traders may run, over whole runs of the ledger. */
module Permissions {
  import opened BaseMath
  import opened Ledger
  import opened Frames

  /** The account itself, an operator for everybody, or an operator that the account has chosen. */
  ghost predicate MayActFor(s: State, account: Address, sender: Address) {
    sender == account || sender in s.globalOperators || (account, sender) in s.localOperators
  }

  predicate SetsGlobal(step: Step, operator: Address) {
    step.SetGlobalOperatorStep? && step.operator == operator
  }

  predicate SetsLocal(step: Step, account: Address, operator: Address) {
    step.SetLocalOperatorStep? && step.sender == account && step.operator == operator
  }

  /** The last call that sets this operator for everybody is step i, and approves it. */
  ghost predicate ApprovedForAll(steps: seq<Step>, i: nat, operator: Address) {
    && i < |steps| && steps[i] == SetGlobalOperatorStep(operator, true)
    && forall k :: i < k < |steps| ==> !SetsGlobal(steps[k], operator)
  }

  /** The last call of the account that sets this operator is step i, and approves it. */
  ghost predicate ApprovedBy(steps: seq<Step>, i: nat, account: Address, operator: Address) {
    && i < |steps| && steps[i] == SetLocalOperatorStep(account, operator, true)
    && forall k :: i < k < |steps| ==> !SetsLocal(steps[k], account, operator)
  }

  lemma {:induction false} RunLast(s: State, steps: seq<Step>)
    requires steps != []
    ensures Run(s, steps) == TakeStep(Run(s, steps[..|steps| - 1]), steps[|steps| - 1])
    decreases |steps|
  {
    if |steps| > 1 {
      RunLast(TakeStep(s, steps[0]), steps[1..]);
      assert steps[..|steps| - 1][1..] == steps[1..][..|steps| - 2];
    }
  }

  /** An operator for everybody is one whose last setting is an approval. */
  lemma {:induction false} GlobalOperatorsAreApproved(s: State, steps: seq<Step>, operator: Address)
    requires operator !in s.globalOperators
    ensures operator in Run(s, steps).globalOperators <==> exists i: nat :: ApprovedForAll(steps, i, operator)
    decreases |steps|
  {
    if steps != [] {
      var n := |steps| - 1;
      RunLast(s, steps);
      StepFrame(Run(s, steps[..n]), steps[n]);
      GlobalOperatorsAreApproved(s, steps[..n], operator);
      if !SetsGlobal(steps[n], operator) {
        forall i: nat ensures ApprovedForAll(steps, i, operator) <==> ApprovedForAll(steps[..n], i, operator) {
        }
      } else if steps[n].approved {
        assert ApprovedForAll(steps, n, operator);
      }
    }
  }

  lemma {:induction false} LocalOperatorsAreApproved(s: State, steps: seq<Step>, account: Address, operator: Address)
    requires (account, operator) !in s.localOperators
    ensures (account, operator) in Run(s, steps).localOperators <==>
      exists i: nat :: ApprovedBy(steps, i, account, operator)
    decreases |steps|
  {
    if steps != [] {
      var n := |steps| - 1;
      RunLast(s, steps);
      StepFrame(Run(s, steps[..n]), steps[n]);
      LocalOperatorsAreApproved(s, steps[..n], account, operator);
      if !SetsLocal(steps[n], account, operator) {
        forall i: nat
          ensures ApprovedBy(steps, i, account, operator) <==> ApprovedBy(steps[..n], i, account, operator)
        {
        }
      } else if steps[n].approved {
        assert ApprovedBy(steps, n, account, operator);
      }
    }
  }

  /** The account itself acts, or somebody whom an earlier step approved, and no step since has set again. */
  ghost predicate IsPermitted(steps: seq<Step>, account: Address, sender: Address) {
    || sender == account
    || (exists i: nat :: ApprovedForAll(steps, i, sender))
    || (exists i: nat :: ApprovedBy(steps, i, account, sender))
  }

  lemma PermittedExactly(
    self: Address, now: nat, minCollateral: nat, steps: seq<Step>, account: Address, sender: Address)
    ensures MayActFor(Run(Initial(self, now, minCollateral), steps), account, sender)
      <==> IsPermitted(steps, account, sender)
  {
    GlobalOperatorsAreApproved(Initial(self, now, minCollateral), steps, sender);
    LocalOperatorsAreApproved(Initial(self, now, minCollateral), steps, account, sender);
  }

  /** Nobody takes margin out of an account without the permission of an earlier step. */
  lemma WithdrawalsArePermitted(
    self: Address, now: nat, minCollateral: nat, steps: seq<Step>, env: Env, sender: Address, account: Address,
    to: Address, amount: nat)
    requires
      Withdraw(Run(Initial(self, now, minCollateral), steps), env, sender, account, to, amount).Some?
    ensures IsPermitted(steps, account, sender)
  {
    PermittedExactly(self, now, minCollateral, steps, account, sender);
  }

  lemma {:induction false} TradersAreOperators(
    s: State, env: Env, sender: Address, accounts: seq<Address>, trades: seq<TradeArg>, flags: set<nat>)
    requires RunTrades(s, env, sender, accounts, trades, flags).Some?
    ensures forall j :: 0 <= j < |trades| ==> trades[j].trader in s.globalOperators
    decreases |trades|
  {
    if trades != [] {
      var (s', flags') := RunTrade(s, env, sender, accounts, trades[0], flags).value;
      TradersAreOperators(s', env, sender, accounts, trades[1..], flags');
      assert forall j :: 1 <= j < |trades| ==> trades[j] == trades[1..][j - 1];
    }
  }

  /** Every trader of an accepted batch was approved for everybody by an earlier step. */
  lemma TradersAreApproved(
    self: Address, now: nat, minCollateral: nat, steps: seq<Step>, env: Env, sender: Address,
    accounts: seq<Address>, trades: seq<TradeArg>, j: nat)
    requires j < |trades|
    requires Trade(Run(Initial(self, now, minCollateral), steps), env, sender, accounts, trades).Some?
    ensures exists i: nat :: ApprovedForAll(steps, i, trades[j].trader)
  {
    var s := Run(Initial(self, now, minCollateral), steps);
    var (settled, _, context) := ExecuteBatch(s, env, sender, accounts, trades).value;
    SettleAccountsFrame(LoadContext(s, env).value.0, context.index, accounts);
    TradersAreOperators(settled, env, sender, accounts, trades, {});
    GlobalOperatorsAreApproved(Initial(self, now, minCollateral), steps, trades[j].trader);
  }

  /** The collateral requirement can be set exactly to 100 percent or more. */
  lemma RequirementIsAcceptedExactly(s: State, minCollateral: nat)
    ensures SetMinCollateral(s, minCollateral).Some? <==> minCollateral >= BASE
    ensures SetMinCollateral(s, minCollateral).Some? ==>
      SetMinCollateral(s, minCollateral).value == s.(minCollateral := minCollateral)
  {
  }

  /** Over any run, the requirement is the initial one until it is set, and at least 100 percent from then on. */
  lemma {:induction false} RequirementIsHigh(s: State, steps: seq<Step>)
    ensures Run(s, steps).minCollateral == s.minCollateral || Run(s, steps).minCollateral >= BASE
    decreases |steps|
  {
    if steps != [] {
      StepFrame(s, steps[0]);
      RequirementIsHigh(TakeStep(s, steps[0]), steps[1..]);
    }
  }
}
