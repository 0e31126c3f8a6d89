/** What accounts receive after final settlement does not depend on who withdraws first, or how often. */
module FinalPayout {
  import opened Options
  import opened BaseMath
  import opened BalanceMath
  import opened Ledger
  import opened Sums
  import opened Solvency

  /** The floor of the account's settled equity at the final price, if it is positive and can be settled. */
  function Due(s: State, a: Address): nat {
    var settled := SettleAccount(s, s.globalIndex, a);
    if settled.None? then 0 else Surplus(settled.value.BalanceOf(a), s.finalSettlementPrice)
  }

  /** A settled balance's value in whole tokens, or zero if the account is under water. */
  function Surplus(b: Balance, price: nat): nat {
    var (positive, negative) := GetPositiveAndNegativeValue(b, price);
    if positive < negative then 0 else (positive - negative) / BASE
  }

  /** The tokens that the steps send to `a` through withdrawFinalSettlement. */
  function PaidTo(s: State, steps: seq<Step>, a: Address): nat
    decreases |steps|
  {
    if steps == [] then
      0
    else
      var here :=
        if steps[0].WithdrawFinalSettlementStep? && steps[0].caller == a then Paid(s, a) else 0;
      here + PaidTo(TakeStep(s, steps[0]), steps[1..], a)
  }

  function Paid(s: State, caller: Address): nat {
    match WithdrawFinalSettlement(s, caller)
    case Some((_, amount)) => amount
    case None => 0
  }

  predicate Withdraws(steps: seq<Step>, a: Address) {
    exists i :: 0 <= i < |steps| && steps[i] == WithdrawFinalSettlementStep(a)
  }

  ghost function StillDue(s0: State, done: set<Address>): Address -> int {
    (a: Address) => if a in done then 0 else Due(s0, a)
  }

  /** `s` is reached from `s0` by steps in which exactly the accounts in `done` have withdrawn. */
  ghost predicate ReachedBy(s0: State, done: set<Address>, s: State) {
    && s.finalSettlementEnabled
    && s.finalSettlementPrice == s0.finalSettlementPrice
    && s.globalIndex == s0.globalIndex
    && (forall a: Address :: AccountDone(s0, done, a, s.BalanceOf(a), s.IndexOf(a)))
    && Total(StillDue(s0, done)) <= s.tokenBalance
  }

  /** An account that has withdrawn is closed, and another one is as it was. */
  predicate AccountDone(s0: State, done: set<Address>, a: Address, b: Balance, local: Index) {
    if a in done then Closed(b, local, s0.globalIndex, s0.finalSettlementPrice)
    else b == s0.BalanceOf(a) && local == s0.IndexOf(a)
  }

  /** An account with this balance and cached index is settled, and worth less than one token. */
  predicate Closed(b: Balance, local: Index, global: Index, price: nat) {
    local.timestamp == global.timestamp && Surplus(b, price) == 0
  }

  /** With no account in debt, the tokens cover everything that is due. */
  lemma TokensSuffice(s: State)
    requires Inv(s) && s.finalSettlementEnabled
    requires forall a: Address :: Equity(s, s.finalSettlementPrice, a) >= 0
    ensures ReachedBy(s, {}, s)
  {
    var price := s.finalSettlementPrice;
    var scaled := (a: Address) => BASE * Due(s, a);
    forall a: Address ensures scaled(a) <= EquityOf(s, price)(a) {
      DueWithinEquity(s, a);
    }
    SumMonotone(scaled, EquityOf(s, price), Everyone());
    var zero := (a: Address) => 0;
    SumZero(zero, Everyone());
    forall a: Address ensures scaled(a) == zero(a) + BASE * StillDue(s, {})(a) {
    }
    SumLinear(zero, scaled, StillDue(s, {}), BASE, Everyone());
  }

  lemma DueWithinEquity(s: State, a: Address)
    requires IndexesCoherent(s)
    requires Equity(s, s.finalSettlementPrice, a) >= 0
    ensures BASE * Due(s, a) <= Equity(s, s.finalSettlementPrice, a)
  {
    if SettleAccount(s, s.globalIndex, a).Some? {
      var s' := SettleAccount(s, s.globalIndex, a).value;
      SettleAccountEffect(s, a);
      SettleAccountEquity(s, s.finalSettlementPrice, a);
      SurplusBound(s'.BalanceOf(a), s.finalSettlementPrice);
      NoLag(s'.BalanceOf(a), s.finalSettlementPrice);
    }
  }

  lemma NoLag(b: Balance, price: nat)
    ensures Worth(b.Margin(), b.Position(), 0, price) == BASE * b.Margin() + price * b.Position()
  {
  }

  lemma SurplusBound(b: Balance, price: nat)
    ensures Surplus(b, price) == 0 || BASE * Surplus(b, price) <= BASE * b.Margin() + price * b.Position()
  {
  }

  /** Paying out a settled account when the tokens suffice: exactly the surplus, and nothing stays behind. */
  lemma PayOutExact(s: State, a: Address)
    requires Surplus(s.BalanceOf(a), s.finalSettlementPrice) <= s.tokenBalance
    ensures PayOut(s, a).Some?
    ensures var (s', amount) := PayOut(s, a).value;
      && amount == Surplus(s.BalanceOf(a), s.finalSettlementPrice)
      && s'.tokenBalance >= s.tokenBalance - amount
      && s' == s.(balances := s'.balances, tokenBalance := s'.tokenBalance)
      && (forall o: Address :: o != a ==> s'.BalanceOf(o) == s.BalanceOf(o))
      && Surplus(s'.BalanceOf(a), s.finalSettlementPrice) == 0
  {
  }

  /** Settlement of an account reads nothing but its own balance and index. */
  lemma SettleLocal(s0: State, s: State, a: Address)
    requires s.globalIndex == s0.globalIndex
    requires s.BalanceOf(a) == s0.BalanceOf(a) && s.IndexOf(a) == s0.IndexOf(a)
    ensures SettleAccount(s, s.globalIndex, a).Some? <==> SettleAccount(s0, s0.globalIndex, a).Some?
    ensures SettleAccount(s, s.globalIndex, a).Some? ==>
      SettleAccount(s, s.globalIndex, a).value.BalanceOf(a) == SettleAccount(s0, s0.globalIndex, a).value.BalanceOf(a)
  {
  }

  lemma SettleFrame(s: State, a: Address)
    requires SettleAccount(s, s.globalIndex, a).Some?
    ensures var s' := SettleAccount(s, s.globalIndex, a).value;
      && s' == s.(balances := s'.balances, localIndexes := s'.localIndexes)
      && s'.IndexOf(a).timestamp == s.globalIndex.timestamp
      && (forall o: Address :: o != a ==> s'.BalanceOf(o) == s.BalanceOf(o) && s'.IndexOf(o) == s.IndexOf(o))
  {
  }

  lemma OneDueWithinTotal(s0: State, done: set<Address>, a: Address)
    requires a !in done
    ensures Total(StillDue(s0, done + {a})) == Total(StillDue(s0, done)) - Due(s0, a)
    ensures Due(s0, a) <= Total(StillDue(s0, done))
  {
    TotalUpdate(StillDue(s0, done), StillDue(s0, done + {a}), a);
    var zero := (o: Address) => 0;
    SumZero(zero, Everyone());
    SumMonotone(zero, StillDue(s0, done + {a}), Everyone());
  }

  /** A withdrawal is a settlement followed by a payout. */
  lemma WithdrawalUnfolds(s: State, a: Address)
    requires s.finalSettlementEnabled
    ensures var settled := SettleAccount(s, s.globalIndex, a);
      && (settled.None? ==> Paid(s, a) == 0 && TryStep(s, WithdrawFinalSettlementStep(a)).None?)
      && (settled.Some? && PayOut(settled.value, a).Some? ==>
          && Paid(s, a) == PayOut(settled.value, a).value.1
          && TryStep(s, WithdrawFinalSettlementStep(a)) == Some(PayOut(settled.value, a).value.0))
  {
  }

  /** The first withdrawal of an account pays all that is due to it. */
  lemma FirstWithdrawal(s0: State, done: set<Address>, s: State, a: Address)
    requires ReachedBy(s0, done, s) && a !in done
    ensures Paid(s, a) == Due(s0, a)
    ensures var step := WithdrawFinalSettlementStep(a);
      if TryStep(s, step).Some? then ReachedBy(s0, done + {a}, TryStep(s, step).value)
      else Due(s0, a) == 0
  {
    assert AccountDone(s0, done, a, s.BalanceOf(a), s.IndexOf(a));
    SettleLocal(s0, s, a);
    WithdrawalUnfolds(s, a);
    if SettleAccount(s, s.globalIndex, a).Some? {
      var settled := SettleAccount(s, s.globalIndex, a).value;
      SettleFrame(s, a);
      OneDueWithinTotal(s0, done, a);
      PayOutExact(settled, a);
      NewlyClosed(s0, done, s, settled, PayOut(settled, a).value.0, a);
    }
  }

  lemma NewlyClosed(s0: State, done: set<Address>, s: State, settled: State, s': State, a: Address)
    requires ReachedBy(s0, done, s) && a !in done
    requires settled == s.(balances := settled.balances, localIndexes := settled.localIndexes)
    requires forall o: Address :: o != a ==>
      settled.BalanceOf(o) == s.BalanceOf(o) && settled.IndexOf(o) == s.IndexOf(o)
    requires settled.IndexOf(a).timestamp == s.globalIndex.timestamp
    requires s' == settled.(balances := s'.balances, tokenBalance := s'.tokenBalance)
    requires s'.tokenBalance >= s.tokenBalance - Due(s0, a)
    requires forall o: Address :: o != a ==> s'.BalanceOf(o) == settled.BalanceOf(o)
    requires Surplus(s'.BalanceOf(a), s.finalSettlementPrice) == 0
    requires Total(StillDue(s0, done + {a})) == Total(StillDue(s0, done)) - Due(s0, a)
    ensures ReachedBy(s0, done + {a}, s')
  {
  }

  /** A later one pays nothing. */
  lemma LaterWithdrawal(s0: State, done: set<Address>, s: State, a: Address)
    requires ReachedBy(s0, done, s) && a in done
    ensures Paid(s, a) == 0
    ensures TryStep(s, WithdrawFinalSettlementStep(a)).Some?
    ensures ReachedBy(s0, done, TryStep(s, WithdrawFinalSettlementStep(a)).value)
  {
    assert AccountDone(s0, done, a, s.BalanceOf(a), s.IndexOf(a));
    PayOutExact(s, a);
    WithdrawalUnfolds(s, a);
    ClosedAgain(s0, done, s, a, PayOut(s, a).value.0);
  }

  lemma ClosedAgain(s0: State, done: set<Address>, s: State, a: Address, s': State)
    requires ReachedBy(s0, done, s) && a in done
    requires s' == s.(balances := s'.balances, tokenBalance := s'.tokenBalance) && s'.tokenBalance >= s.tokenBalance
    requires forall o: Address :: o != a ==> s'.BalanceOf(o) == s.BalanceOf(o)
    requires Surplus(s'.BalanceOf(a), s.finalSettlementPrice) == 0
    ensures ReachedBy(s0, done, s')
  {
    forall o: Address
      ensures AccountDone(s0, done, o, s'.BalanceOf(o), s'.IndexOf(o))
    {
      assert s'.IndexOf(o) == s.IndexOf(o);
      assert AccountDone(s0, done, o, s.BalanceOf(o), s.IndexOf(o));
    }
  }

  /** No other call touches balances, indexes or the final price, or sends tokens. */
  lemma FrozenWhenFinal(s: State, step: Step)
    requires s.finalSettlementEnabled && !step.WithdrawFinalSettlementStep?
    ensures var s' := TakeStep(s, step);
      && s' == s.(globalOperators := s'.globalOperators, localOperators := s'.localOperators,
                  minCollateral := s'.minCollateral, tokenBalance := s'.tokenBalance)
      && s'.tokenBalance >= s.tokenBalance
  {
  }

  lemma OtherSteps(s0: State, done: set<Address>, s: State, s': State)
    requires ReachedBy(s0, done, s)
    requires s' == s.(globalOperators := s'.globalOperators, localOperators := s'.localOperators,
                      minCollateral := s'.minCollateral, tokenBalance := s'.tokenBalance)
    requires s'.tokenBalance >= s.tokenBalance
    ensures ReachedBy(s0, done, s')
  {
    forall o: Address
      ensures AccountDone(s0, done, o, s'.BalanceOf(o), s'.IndexOf(o))
    {
      assert s'.BalanceOf(o) == s.BalanceOf(o) && s'.IndexOf(o) == s.IndexOf(o);
      assert AccountDone(s0, done, o, s.BalanceOf(o), s.IndexOf(o));
    }
  }

  /** One step, with the accounts that have withdrawn after it. */
  lemma OneStep(s0: State, done: set<Address>, s: State, step: Step) returns (done': set<Address>)
    requires ReachedBy(s0, done, s)
    ensures ReachedBy(s0, done', TakeStep(s, step))
    ensures forall a: Address :: a in done' <==>
      (a in done || (step == WithdrawFinalSettlementStep(a) && TryStep(s, step).Some?))
    ensures step.WithdrawFinalSettlementStep? ==>
      && Paid(s, step.caller) == (if step.caller in done then 0 else Due(s0, step.caller))
      && (TryStep(s, step).None? && step.caller !in done ==> Due(s0, step.caller) == 0)
  {
    done' := done;
    if !step.WithdrawFinalSettlementStep? {
      FrozenWhenFinal(s, step);
      OtherSteps(s0, done, s, TakeStep(s, step));
    } else if step.caller in done {
      LaterWithdrawal(s0, done, s, step.caller);
    } else {
      FirstWithdrawal(s0, done, s, step.caller);
      if TryStep(s, step).Some? {
        done' := done + {step.caller};
      }
    }
  }

  lemma WithdrawsSplit(steps: seq<Step>, a: Address)
    requires steps != []
    ensures Withdraws(steps, a) <==> steps[0] == WithdrawFinalSettlementStep(a) || Withdraws(steps[1..], a)
  {
  }

  lemma {:induction false} PaidFromHere(s0: State, done: set<Address>, s: State, steps: seq<Step>, a: Address)
    requires ReachedBy(s0, done, s)
    ensures PaidTo(s, steps, a) == if a !in done && Withdraws(steps, a) then Due(s0, a) else 0
    decreases |steps|
  {
    if steps != [] {
      var done' := OneStep(s0, done, s, steps[0]);
      WithdrawsSplit(steps, a);
      PaidFromHere(s0, done', TakeStep(s, steps[0]), steps[1..], a);
    }
  }

  /** Final settlement cannot be left, and its price and index stay what they were when it was enabled. */
  lemma {:induction false} SettlementIsFinal(s: State, steps: seq<Step>)
    requires s.finalSettlementEnabled
    ensures var s' := Run(s, steps);
      && s'.finalSettlementEnabled
      && s'.finalSettlementPrice == s.finalSettlementPrice
      && s'.globalIndex == s.globalIndex
    decreases |steps|
  {
    if steps != [] {
      if steps[0].WithdrawFinalSettlementStep? {
        WithdrawalKeepsPrice(s, steps[0].caller);
      } else {
        FrozenWhenFinal(s, steps[0]);
      }
      SettlementIsFinal(TakeStep(s, steps[0]), steps[1..]);
    }
  }

  lemma WithdrawalKeepsPrice(s: State, caller: Address)
    requires s.finalSettlementEnabled
    ensures var s' := TakeStep(s, WithdrawFinalSettlementStep(caller));
      && s'.finalSettlementEnabled
      && s'.finalSettlementPrice == s.finalSettlementPrice
      && s'.globalIndex == s.globalIndex
  {
  }

  // ---------- When the tokens do not suffice ----------

  /** Somewhere among withdrawals of the accounts in `done`, with more still due than there are tokens. */
  ghost predicate FallsShort(s0: State, done: set<Address>, s: State) {
    && s.finalSettlementEnabled
    && s.finalSettlementPrice == s0.finalSettlementPrice
    && s.globalIndex == s0.globalIndex
    && s.self == s0.self
    && (forall a: Address :: a !in done ==> s.BalanceOf(a) == s0.BalanceOf(a) && s.IndexOf(a) == s0.IndexOf(a))
    && Total(StillDue(s0, done)) > s.tokenBalance
  }

  /** A payout is capped by what is due and by the tokens, takes its tokens away, and leaves the others alone. */
  lemma PayOutCapped(s: State, a: Address)
    ensures PayOut(s, a).Some? ==>
      var (s', amount) := PayOut(s, a).value;
      && amount <= Surplus(s.BalanceOf(a), s.finalSettlementPrice) && amount <= s.tokenBalance
      && s' == s.(balances := s'.balances, tokenBalance := s'.tokenBalance)
      && s'.tokenBalance == (if a == s.self then s.tokenBalance else s.tokenBalance - amount)
      && (forall o: Address :: o != a ==> s'.BalanceOf(o) == s.BalanceOf(o))
  {
  }

  lemma WithdrawalCapped(s0: State, done: set<Address>, s: State, a: Address)
    requires FallsShort(s0, done, s) && a !in done
    ensures Paid(s, a) <= Due(s0, a) && Paid(s, a) <= s.tokenBalance
    ensures Paid(s, a) == Due(s0, a) && a != s0.self ==>
      FallsShort(s0, done + {a}, TakeStep(s, WithdrawFinalSettlementStep(a)))
  {
    SettleLocal(s0, s, a);
    WithdrawalUnfolds(s, a);
    OneDueWithinTotal(s0, done, a);
    if SettleAccount(s, s.globalIndex, a).Some? {
      SettleFrame(s, a);
      PayOutCapped(SettleAccount(s, s.globalIndex, a).value, a);
    }
    var s' := TakeStep(s, WithdrawFinalSettlementStep(a));
    if Paid(s, a) == Due(s0, a) && a != s0.self {
      StillShort(s0, done, s, s', a);
    }
  }

  lemma StillShort(s0: State, done: set<Address>, s: State, s': State, a: Address)
    requires FallsShort(s0, done, s)
    requires s' == s.(balances := s'.balances, localIndexes := s'.localIndexes, tokenBalance := s'.tokenBalance)
    requires forall o: Address :: o != a ==> s'.BalanceOf(o) == s.BalanceOf(o) && s'.IndexOf(o) == s.IndexOf(o)
    requires s'.tokenBalance == s.tokenBalance - Due(s0, a)
    requires Total(StillDue(s0, done + {a})) == Total(StillDue(s0, done)) - Due(s0, a)
    ensures FallsShort(s0, done + {a}, s')
  {
  }

  /** The others withdraw first, and the contract's own account, whose payout takes no tokens away, comes last. */
  lemma {:induction false} SomeoneFallsShort(s0: State, done: set<Address>, s: State)
    returns (steps: seq<Step>, a: Address)
    requires FallsShort(s0, done, s) && s0.self !in done
    ensures a !in done && Withdraws(steps, a)
    ensures PaidTo(s, steps, a) < Due(s0, a)
    decreases Everyone() - done
  {
    var others := Everyone() - done - {s0.self};
    if others == {} {
      a := s0.self;
      OnlyOneDue(s0, done, a);
    } else {
      a :| a in others;
    }
    WithdrawalCapped(s0, done, s, a);
    var first, rest := a, [];
    if others != {} && Paid(s, a) == Due(s0, a) {
      rest, a := SomeoneFallsShort(s0, done + {first}, TakeStep(s, WithdrawFinalSettlementStep(first)));
    }
    steps := [WithdrawFinalSettlementStep(first)] + rest;
    WithdrawalFirst(s, first, rest, a);
  }

  lemma WithdrawalFirst(s: State, first: Address, rest: seq<Step>, a: Address)
    ensures var step := WithdrawFinalSettlementStep(first);
      && (Withdraws([step] + rest, a) <==> first == a || Withdraws(rest, a))
      && PaidTo(s, [step] + rest, a)
           == (if first == a then Paid(s, a) else 0) + PaidTo(TakeStep(s, step), rest, a)
  {
    var steps := [WithdrawFinalSettlementStep(first)] + rest;
    assert steps[1..] == rest;
    WithdrawsSplit(steps, a);
  }

  lemma OnlyOneDue(s0: State, done: set<Address>, a: Address)
    requires Everyone() - done - {a} == {} && a !in done
    ensures Total(StillDue(s0, done)) == Due(s0, a)
  {
    assert IsAddress(a);
    var zero := (o: Address) => 0;
    SumZero(zero, Everyone());
    forall o: Address | o != a ensures StillDue(s0, done)(o) == zero(o) {
      assert IsAddress(o) && o in Everyone() && o !in Everyone() - done - {a};
    }
    TotalUpdate(zero, StillDue(s0, done), a);
  }

  // ---------- What is not paid stays due ----------

  /**
   A payout closes the position of an account that is not in debt, and leaves what could not be paid as margin. An
   account in debt stays as it is.
   */
  lemma PayOutConserves(s: State, a: Address)
    requires PayOut(s, a).Some?
    ensures var (s', amount) := PayOut(s, a).value;
      var b, b' := s.BalanceOf(a), s'.BalanceOf(a);
      && amount + Surplus(b', s.finalSettlementPrice) == Surplus(b, s.finalSettlementPrice)
      && (if BASE * b.Margin() + s.finalSettlementPrice * b.Position() >= 0 then
            b'.Position() == 0 && b'.Margin() == Surplus(b, s.finalSettlementPrice) - amount
          else b' == b)
  {
    var b := s.BalanceOf(a);
    var value := Surplus(b, s.finalSettlementPrice);
    var rest := value - BaseMath.Min(s.tokenBalance, value);
    if rest < UINT120 {
      SurplusOfMargin(rest, s.finalSettlementPrice);
    }
  }

  lemma SurplusOfMargin(margin: Uint120, price: nat)
    ensures Surplus(Balance(margin != 0, false, margin, 0), price) == margin
  {
    assert GetPositiveAndNegativeValue(Balance(margin != 0, false, margin, 0), price) == (margin * BASE, 0);
  }

  lemma StepConserves(s: State, step: Step, a: Address)
    requires s.finalSettlementEnabled
    ensures TakeStep(s, step).finalSettlementEnabled
    ensures Due(s, a) == Due(TakeStep(s, step), a)
      + if step == WithdrawFinalSettlementStep(a) then Paid(s, a) else 0
  {
    var s' := TakeStep(s, step);
    SettlementIsFinal(s, [step]);
    assert Run(s, [step]) == s';
    if !step.WithdrawFinalSettlementStep? {
      FrozenWhenFinal(s, step);
      SettleLocal(s, s', a);
    } else {
      WithdrawalConserves(s, step.caller, a);
    }
  }

  lemma WithdrawalConserves(s: State, caller: Address, a: Address)
    requires s.finalSettlementEnabled
    ensures Due(s, a) == Due(TakeStep(s, WithdrawFinalSettlementStep(caller)), a)
      + if caller == a then Paid(s, a) else 0
  {
    var s' := TakeStep(s, WithdrawFinalSettlementStep(caller));
    WithdrawalUnfolds(s, caller);
    WithdrawalKeepsPrice(s, caller);
    if SettleAccount(s, s.globalIndex, caller).Some? {
      var settled := SettleAccount(s, s.globalIndex, caller).value;
      SettleFrame(s, caller);
      if PayOut(settled, caller).Some? {
        PayOutCapped(settled, caller);
        if caller == a {
          PayOutConserves(settled, a);
        } else {
          SettleLocal(s, s', a);
        }
      }
    }
  }

  /**
   In final settlement, what an account has been paid and what is still due to it add up to what was due, after
   any run, whether the tokens suffice or not.
   */
  lemma {:induction false} PaidAndDueAddUp(s: State, steps: seq<Step>, a: Address)
    requires s.finalSettlementEnabled
    ensures PaidTo(s, steps, a) + Due(Run(s, steps), a) == Due(s, a)
    decreases |steps|
  {
    if steps != [] {
      StepConserves(s, steps[0], a);
      PaidAndDueAddUp(TakeStep(s, steps[0]), steps[1..], a);
    }
  }

  /** Each account that withdraws receives, in total, what is due to it, and another one nothing. */
  ghost predicate PaysInFull(s: State, steps: seq<Step>, a: Address) {
    PaidTo(s, steps, a) == if Withdraws(steps, a) then Due(s, a) else 0
  }

  /**
   Exactly when withdrawals pay in full whatever their order, and whatever else is called in between: when
   the tokens cover all that is due.
   */
  lemma PaidInFullExactly(s: State)
    requires s.finalSettlementEnabled
    ensures (forall steps, a: Address :: PaysInFull(s, steps, a)) <==> Total(StillDue(s, {})) <= s.tokenBalance
  {
    if Total(StillDue(s, {})) <= s.tokenBalance {
      forall steps, a: Address ensures PaysInFull(s, steps, a) {
        PaidFromHere(s, {}, s, steps, a);
      }
    } else {
      var steps, a := SomeoneFallsShort(s, {}, s);
      assert !PaysInFull(s, steps, a);
    }
  }

  /**
   When final settlement starts with no account in debt, every account that withdraws at least once is
   paid the floor of its settled equity, in any interleaving with any other calls, and no more than that.
   */
  lemma PayoutIndependentOfOrder(
    self: Address, now: nat, minCollateral: nat, before: seq<Step>, after: seq<Step>, a: Address)
    requires var s := Run(Initial(self, now, minCollateral), before);
      s.finalSettlementEnabled && forall o: Address :: Equity(s, s.finalSettlementPrice, o) >= 0
    ensures var s := Run(Initial(self, now, minCollateral), before);
      PaidTo(s, after, a) == if Withdraws(after, a) then Due(s, a) else 0
  {
    InitialInv(self, now, minCollateral);
    RunKeepsInv(Initial(self, now, minCollateral), before);
    var s := Run(Initial(self, now, minCollateral), before);
    TokensSuffice(s);
    PaidInFullExactly(s);
    assert PaysInFull(s, after, a);
  }
}
