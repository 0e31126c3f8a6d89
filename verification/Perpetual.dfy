/**
 The PerpetualV1 contract with its storage as fields. Balances are copied from storage to memory
 objects, changed in place and written back, and a failed call rolls the storage back. Every public
 method is proved to do exactly what the function of the same name in Ledger says.
 */
module Perpetual {
  import opened SignedMath
  import opened BaseMath
  import opened BalanceMath
  import opened MemoryBalance
  import opened Ledger
  import opened Sequences

  /** Settling one account leaves the balance and the cached index of every other account alone. */
  lemma SettleAccountFrame(s: State, newIndex: Index, account: Address, other: Address)
    requires SettleAccount(s, newIndex, account).Some?
    requires other != account
    ensures var s' := SettleAccount(s, newIndex, account).value;
      s'.BalanceOf(other) == s.BalanceOf(other) && s'.IndexOf(other) == s.IndexOf(other)
  {
  }

  class PerpetualV1 {
    const self: Address
    var balances: map<Address, Balance>
    var localIndexes: map<Address, Index>
    var globalOperators: set<Address>
    var localOperators: set<(Address, Address)>
    var globalIndex: Index
    var minCollateral: nat
    var finalSettlementEnabled: bool
    var finalSettlementPrice: nat
    var tokenBalance: nat

    function Abs(): State
      reads this
    {
      State(self, balances, localIndexes, globalOperators, localOperators, globalIndex, minCollateral,
        finalSettlementEnabled, finalSettlementPrice, tokenBalance)
    }

    constructor (self: Address, now: nat, minCollateral: nat)
      ensures Abs() == Initial(self, now, minCollateral)
    {
      this.self := self;
      balances, localIndexes := map[], map[];
      globalOperators, localOperators := {}, {};
      globalIndex := Index(now % UINT32, false, 0);
      this.minCollateral := minCollateral;
      finalSettlementEnabled, finalSettlementPrice, tokenBalance := false, 0, 0;
    }

    /** What the virtual machine does to the storage when a call reverts. */
    method Rollback(saved: State)
      requires saved.self == self
      modifies this
      ensures Abs() == saved
    {
      balances, localIndexes := saved.balances, saved.localIndexes;
      globalOperators, localOperators := saved.globalOperators, saved.localOperators;
      globalIndex, minCollateral := saved.globalIndex, saved.minCollateral;
      finalSettlementEnabled := saved.finalSettlementEnabled;
      finalSettlementPrice := saved.finalSettlementPrice;
      tokenBalance := saved.tokenBalance;
    }

    // ---------- P1Settlement ----------

    method LoadContext(env: Env) returns (ok: bool, context: Context)
      modifies this
      ensures ok == Ledger.LoadContext(old(Abs()), env).Some?
      ensures ok ==> (Abs(), context) == Ledger.LoadContext(old(Abs()), env).value
    {
      var index := globalIndex;
      context := Context(env.price, minCollateral, index);
      if env.now < index.timestamp {
        return false, context;
      }
      if env.now - index.timestamp > 0 {
        var signedIndex := Int(index.value, index.isPositive);
        var fundingValue := BaseMul(env.funding.value, env.price);
        if env.funding.isPositive {
          signedIndex := Add(signedIndex, fundingValue);
        } else {
          signedIndex := Sub(signedIndex, fundingValue);
        }
        if env.now >= UINT32 || signedIndex.value >= UINT128 {
          return false, context;
        }
        index := Index(env.now, signedIndex.isPositive, signedIndex.value);
        globalIndex := index;
      }
      return true, Context(env.price, minCollateral, index);
    }

    method SettleAccount(newIndex: Index, account: Address) returns (ok: bool, balance: MemBalance)
      modifies this
      ensures fresh(balance)
      ensures ok == Ledger.SettleAccount(old(Abs()), newIndex, account).Some?
      ensures ok ==> Abs() == Ledger.SettleAccount(old(Abs()), newIndex, account).value
      ensures ok ==> balance.Value() == Abs().BalanceOf(account)
    {
      ok := true;
      var oldIndex := Abs().IndexOf(account);
      balance := new MemBalance(Abs().BalanceOf(account));
      if oldIndex.timestamp == newIndex.timestamp {
        return;
      }
      localIndexes := localIndexes[account := newIndex];
      if balance.position == 0 {
        return;
      }
      var diff := Int(newIndex.value, newIndex.isPositive);
      if oldIndex.isPositive {
        diff := Sub(diff, oldIndex.value);
      } else {
        diff := Add(diff, oldIndex.value);
      }
      if diff.isPositive != balance.positionIsPositive {
        ok := balance.AddToMargin(BaseMul(diff.value, balance.position));
      } else {
        ok := balance.SubFromMargin(BaseMulRoundUp(diff.value, balance.position));
      }
      balances := balances[account := balance.Value()];
    }

    method SettleAccounts(newIndex: Index, accounts: seq<Address>) returns (ok: bool, result: seq<MemBalance>)
      requires VerifyAccounts(accounts)
      modifies this
      ensures ok == Ledger.SettleAccounts(old(Abs()), newIndex, accounts).Some?
      ensures ok ==> Abs() == Ledger.SettleAccounts(old(Abs()), newIndex, accounts).value
      ensures ok ==> |result| == |accounts|
      ensures forall i :: 0 <= i < |result| ==> fresh(result[i])
      ensures ok ==> forall i :: 0 <= i < |accounts| ==> result[i].Value() == Abs().BalanceOf(accounts[i])
    {
      result := [];
      ghost var before := Abs();
      for i := 0 to |accounts|
        invariant |result| == i
        invariant forall k :: 0 <= k < i ==> fresh(result[k]) && result[k].Value() == Abs().BalanceOf(accounts[k])
        invariant Ledger.SettleAccounts(before, newIndex, accounts)
                == Ledger.SettleAccounts(Abs(), newIndex, accounts[i..])
      {
        ghost var s := Abs();
        assert accounts[i..][1..] == accounts[i + 1..];
        var settled, balance := SettleAccount(newIndex, accounts[i]);
        if !settled {
          return false, result;
        }
        forall k | 0 <= k < i ensures Abs().BalanceOf(accounts[k]) == s.BalanceOf(accounts[k]) {
          Ascending(accounts, k, i);
          SettleAccountFrame(s, newIndex, accounts[i], accounts[k]);
        }
        result := result + [balance];
      }
      return true, result;
    }

    // ---------- P1Margin ----------

    /** The token's transfer out of the contract. */
    method SendTokens(to: Address, amount: nat) returns (ok: bool)
      modifies this`tokenBalance
      ensures ok == Ledger.SendTokens(old(Abs()), to, amount).Some?
      ensures Abs() == if ok then Ledger.SendTokens(old(Abs()), to, amount).value else old(Abs())
    {
      ok := amount <= tokenBalance;
      if ok && to != self {
        tokenBalance := tokenBalance - amount;
      }
    }

    method Deposit(env: Env, account: Address, amount: nat) returns (ok: bool)
      modifies this
      ensures ok == Ledger.Deposit(old(Abs()), env, account, amount).Some?
      ensures Abs() == if ok then Ledger.Deposit(old(Abs()), env, account, amount).value else old(Abs())
    {
      var saved := Abs();
      ok := DepositBody(env, account, amount);
      if !ok {
        Rollback(saved);
      }
    }

    method DepositBody(env: Env, account: Address, amount: nat) returns (ok: bool)
      modifies this
      ensures ok == Ledger.Deposit(old(Abs()), env, account, amount).Some?
      ensures ok ==> Abs() == Ledger.Deposit(old(Abs()), env, account, amount).value
    {
      if finalSettlementEnabled {
        return false;
      }
      var loaded, context := LoadContext(env);
      if !loaded {
        return false;
      }
      var settled, balance := SettleAccount(context.index, account);
      if !settled {
        return false;
      }
      tokenBalance := tokenBalance + amount;
      ok := balance.AddToMargin(amount);
      balances := balances[account := balance.Value()];
    }

    method Withdraw(env: Env, sender: Address, account: Address, destination: Address, amount: nat) returns (ok: bool)
      modifies this
      ensures ok == Ledger.Withdraw(old(Abs()), env, sender, account, destination, amount).Some?
      ensures Abs() ==
        if ok then Ledger.Withdraw(old(Abs()), env, sender, account, destination, amount).value else old(Abs())
    {
      var saved := Abs();
      ok := WithdrawBody(env, sender, account, destination, amount);
      if !ok {
        Rollback(saved);
      }
    }

    method WithdrawBody(env: Env, sender: Address, account: Address, destination: Address, amount: nat)
      returns (ok: bool)
      modifies this
      ensures ok == Ledger.Withdraw(old(Abs()), env, sender, account, destination, amount).Some?
      ensures ok ==> Abs() == Ledger.Withdraw(old(Abs()), env, sender, account, destination, amount).value
    {
      if finalSettlementEnabled || !Abs().HasAccountPermissions(account, sender) {
        return false;
      }
      var loaded, context := LoadContext(env);
      if !loaded {
        return false;
      }
      var settled, balance := SettleAccount(context.index, account);
      if !settled {
        return false;
      }
      var sent := SendTokens(destination, amount);
      if !sent {
        return false;
      }
      var subtracted := balance.SubFromMargin(amount);
      if !subtracted {
        return false;
      }
      balances := balances[account := balance.Value()];
      return IsCollateralized(balance.Value(), context.price, context.minCollateral);
    }

    // ---------- P1Trade ----------

    method Trade(env: Env, sender: Address, accounts: seq<Address>, trades: seq<TradeArg>) returns (ok: bool)
      modifies this
      ensures ok == Ledger.Trade(old(Abs()), env, sender, accounts, trades).Some?
      ensures Abs() == if ok then Ledger.Trade(old(Abs()), env, sender, accounts, trades).value else old(Abs())
    {
      var saved := Abs();
      ok := TradeBody(env, sender, accounts, trades);
      if !ok {
        Rollback(saved);
      }
    }

    /** The whole batch: settle, copy, run the trades on the copies, and compare with the initial balances. */
    method TradeBody(env: Env, sender: Address, accounts: seq<Address>, trades: seq<TradeArg>) returns (ok: bool)
      modifies this
      ensures ok == Ledger.Trade(old(Abs()), env, sender, accounts, trades).Some?
      ensures ok ==> Abs() == Ledger.Trade(old(Abs()), env, sender, accounts, trades).value
    {
      if finalSettlementEnabled {
        return false;
      }
      var sorted := VerifySorted(accounts);
      if !sorted {
        return false;
      }
      var loaded, context := LoadContext(env);
      if !loaded {
        return false;
      }
      var settled, initialBalances := SettleAccounts(context.index, accounts);
      if !settled {
        return false;
      }
      ghost var settledState := Abs();
      var currentBalances := CopyAll(initialBalances);
      var traded := TradeLoop(env, sender, accounts, trades, currentBalances);
      if !traded {
        return false;
      }
      assert Coherent(settledState, accounts, initialBalances);
      ok := VerifyFinalBalances(context, initialBalances, currentBalances);
    }

    /**
     The loop over the trades. Traders read the storage in the middle of it, while the final check reads
     the memory objects: every iteration keeps the two equal.
     */
    method TradeLoop(
      env: Env, sender: Address, accounts: seq<Address>, trades: seq<TradeArg>, currentBalances: seq<MemBalance>)
      returns (ok: bool)
      requires NoRepeats(accounts)
      requires Distinct(currentBalances, [])
      requires Coherent(Abs(), accounts, currentBalances)
      modifies this, currentBalances
      ensures ok == RunTrades(old(Abs()), env, sender, accounts, trades, {}).Some?
      ensures ok ==> Abs() == RunTrades(old(Abs()), env, sender, accounts, trades, {}).value
      ensures ok ==> Coherent(Abs(), accounts, currentBalances)
    {
      var flags: set<nat> := {};
      for i := 0 to |trades|
        invariant Coherent(Abs(), accounts, currentBalances)
        invariant RunTrades(old(Abs()), env, sender, accounts, trades, {})
               == RunTrades(Abs(), env, sender, accounts, trades[i..], flags)
      {
        assert trades[i..][1..] == trades[i + 1..];
        var traded, tradeFlags := TradeOnce(env, sender, accounts, trades[i], flags, currentBalances);
        if !traded {
          return false;
        }
        flags := flags + tradeFlags;
      }
      return true;
    }

    /** One iteration of the trade loop, on the memory objects at the two indices. */
    method TradeOnce(
      env: Env, sender: Address, accounts: seq<Address>, arg: TradeArg, flags: set<nat>,
      currentBalances: seq<MemBalance>)
      returns (ok: bool, tradeFlags: set<nat>)
      requires NoRepeats(accounts)
      requires Distinct(currentBalances, [])
      requires Coherent(Abs(), accounts, currentBalances)
      modifies this, currentBalances
      ensures ok == RunTrade(old(Abs()), env, sender, accounts, arg, flags).Some?
      ensures ok ==> (Abs(), flags + tradeFlags) == RunTrade(old(Abs()), env, sender, accounts, arg, flags).value
      ensures ok ==> Coherent(Abs(), accounts, currentBalances)
    {
      tradeFlags := {};
      if arg.trader !in globalOperators || arg.makerIndex >= |accounts| || arg.takerIndex >= |accounts| {
        return false, tradeFlags;
      }
      var maker, taker := accounts[arg.makerIndex], accounts[arg.takerIndex];
      var executed := arg.execute(TraderView(Abs(), env.now, sender, maker, taker, env.price, flags));
      if executed.None? {
        return false, tradeFlags;
      }
      var r := executed.value;
      tradeFlags := r.traderFlags;
      if maker == taker {
        return true, tradeFlags;
      }
      ok := UpdateBalances(accounts, arg.makerIndex, arg.takerIndex, r, currentBalances);
    }

    /** Changes both parties' memory objects in place, then writes them to storage. */
    method UpdateBalances(
      accounts: seq<Address>, makerIndex: nat, takerIndex: nat, r: TradeResult, currentBalances: seq<MemBalance>)
      returns (ok: bool)
      requires makerIndex < |accounts| && takerIndex < |accounts| && accounts[makerIndex] != accounts[takerIndex]
      requires NoRepeats(accounts)
      requires Distinct(currentBalances, [])
      requires Coherent(Abs(), accounts, currentBalances)
      modifies this`balances, currentBalances
      ensures ok == ApplyResult(old(Abs()), accounts[makerIndex], accounts[takerIndex], r).Some?
      ensures ok ==> Abs() == ApplyResult(old(Abs()), accounts[makerIndex], accounts[takerIndex], r).value
      ensures ok ==> Coherent(Abs(), accounts, currentBalances)
    {
      var maker, taker := accounts[makerIndex], accounts[takerIndex];
      var makerBalance, takerBalance := currentBalances[makerIndex], currentBalances[takerIndex];
      assert forall k :: 0 <= k < |accounts| && k != makerIndex ==> accounts[k] != maker;
      assert forall k :: 0 <= k < |accounts| && k != takerIndex ==> accounts[k] != taker;
      ok := MoveBoth(makerBalance, takerBalance, r);
      if ok {
        balances := balances[maker := makerBalance.Value()][taker := takerBalance.Value()];
      }
    }

    method MoveBoth(maker: MemBalance, taker: MemBalance, r: TradeResult) returns (ok: bool)
      requires maker != taker
      modifies maker, taker
      ensures ok == Ledger.MoveBoth(old(maker.Value()), old(taker.Value()), r).Some?
      ensures ok ==> (maker.Value(), taker.Value()) == Ledger.MoveBoth(old(maker.Value()), old(taker.Value()), r).value
    {
      if r.isBuy {
        ok := maker.AddToMargin(r.marginAmount);
        if ok { ok := maker.SubFromPosition(r.positionAmount); }
        if ok { ok := taker.SubFromMargin(r.marginAmount); }
        if ok { ok := taker.AddToPosition(r.positionAmount); }
      } else {
        ok := maker.SubFromMargin(r.marginAmount);
        if ok { ok := maker.AddToPosition(r.positionAmount); }
        if ok { ok := taker.AddToMargin(r.marginAmount); }
        if ok { ok := taker.SubFromPosition(r.positionAmount); }
      }
    }

    method CopyAll(initialBalances: seq<MemBalance>) returns (copies: seq<MemBalance>)
      ensures |copies| == |initialBalances| && fresh(copies)
      ensures Distinct(copies, initialBalances)
      ensures forall i :: 0 <= i < |copies| ==> copies[i].Value() == initialBalances[i].Value()
    {
      copies := [];
      for i := 0 to |initialBalances|
        invariant |copies| == i && fresh(copies)
        invariant Distinct(copies, initialBalances)
        invariant forall k :: 0 <= k < i ==> copies[k].Value() == initialBalances[k].Value()
      {
        var c := initialBalances[i].Copy();
        copies := copies + [c];
      }
    }

    method VerifyFinalBalances(context: Context, initialBalances: seq<MemBalance>, currentBalances: seq<MemBalance>)
      returns (ok: bool)
      requires |initialBalances| == |currentBalances|
      ensures ok <==> forall i :: 0 <= i < |currentBalances| ==>
        AccountAllowed(
          initialBalances[i].Value(), currentBalances[i].Value(), context.price, context.minCollateral)
    {
      for i := 0 to |currentBalances|
        invariant forall k :: 0 <= k < i ==>
          AccountAllowed(
            initialBalances[k].Value(), currentBalances[k].Value(), context.price, context.minCollateral)
      {
        var current, initial := currentBalances[i].Value(), initialBalances[i].Value();
        if !AccountAllowed(initial, current, context.price, context.minCollateral) {
          return false;
        }
      }
      return true;
    }

    // ---------- P1FinalSettlement and P1Admin ----------

    method EnableFinalSettlement(env: Env, priceLowerBound: nat, priceUpperBound: nat) returns (ok: bool)
      modifies this
      ensures ok == Ledger.EnableFinalSettlement(old(Abs()), env, priceLowerBound, priceUpperBound).Some?
      ensures Abs() ==
        if ok then Ledger.EnableFinalSettlement(old(Abs()), env, priceLowerBound, priceUpperBound).value
        else old(Abs())
    {
      if finalSettlementEnabled {
        return false;
      }
      var saved := Abs();
      var loaded, context := LoadContext(env);
      if !loaded || context.price < priceLowerBound || context.price > priceUpperBound {
        Rollback(saved);
        return false;
      }
      finalSettlementPrice := context.price;
      finalSettlementEnabled := true;
      return true;
    }

    method WithdrawFinalSettlement(caller: Address) returns (ok: bool, paid: nat)
      modifies this
      ensures ok == Ledger.WithdrawFinalSettlement(old(Abs()), caller).Some?
      ensures ok ==> (Abs(), paid) == Ledger.WithdrawFinalSettlement(old(Abs()), caller).value
      ensures !ok ==> Abs() == old(Abs()) && paid == 0
    {
      var saved := Abs();
      ok, paid := WithdrawFinalSettlementBody(caller);
      if !ok {
        Rollback(saved);
        paid := 0;
      }
    }

    method WithdrawFinalSettlementBody(caller: Address) returns (ok: bool, paid: nat)
      modifies this
      ensures ok == Ledger.WithdrawFinalSettlement(old(Abs()), caller).Some?
      ensures ok ==> (Abs(), paid) == Ledger.WithdrawFinalSettlement(old(Abs()), caller).value
    {
      if !finalSettlementEnabled {
        return false, 0;
      }
      var settled, balance := SettleAccount(globalIndex, caller);
      if !settled {
        return false, 0;
      }
      var (positive, negative) := GetPositiveAndNegativeValue(balance.Value(), finalSettlementPrice);
      if positive < negative {
        return true, 0;
      }
      var accountValue := (positive - negative) / BASE;
      paid := BaseMath.Min(tokenBalance, accountValue);
      var remaining := accountValue - paid;
      if remaining >= UINT120 {
        return false, paid;
      }
      balances := balances[caller := Balance(remaining != 0, false, remaining, 0)];
      var sent := SendTokens(caller, paid);
      return sent, paid;
    }

    method SetMinCollateral(minCollateral: nat) returns (ok: bool)
      modifies this
      ensures ok == Ledger.SetMinCollateral(old(Abs()), minCollateral).Some?
      ensures Abs() == if ok then Ledger.SetMinCollateral(old(Abs()), minCollateral).value else old(Abs())
    {
      ok := minCollateral >= BASE;
      if ok {
        this.minCollateral := minCollateral;
      }
    }

    method SetGlobalOperator(operator: Address, approved: bool)
      modifies this
      ensures Abs() == Ledger.SetGlobalOperator(old(Abs()), operator, approved)
    {
      globalOperators := if approved then globalOperators + {operator} else globalOperators - {operator};
    }

    method SetLocalOperator(sender: Address, operator: Address, approved: bool)
      modifies this
      ensures Abs() == Ledger.SetLocalOperator(old(Abs()), sender, operator, approved)
    {
      localOperators :=
        if approved then localOperators + {(sender, operator)} else localOperators - {(sender, operator)};
    }
  }

  /** The memory objects hold exactly what the storage holds. */
  ghost predicate Coherent(s: State, accounts: seq<Address>, memory: seq<MemBalance>)
    reads memory
  {
    |memory| == |accounts| && forall k :: 0 <= k < |accounts| ==> memory[k].Value() == s.BalanceOf(accounts[k])
  }

  /** The objects of `memory` are pairwise different, and none is one of `others`. */
  ghost predicate Distinct(memory: seq<MemBalance>, others: seq<MemBalance>) {
    && (forall i, j :: 0 <= i < j < |memory| ==> memory[i] != memory[j])
    && (forall i, j :: 0 <= i < |memory| && 0 <= j < |others| ==> memory[i] != others[j])
  }

  lemma Ascending(accounts: seq<Address>, i: nat, j: nat)
    requires VerifyAccounts(accounts)
    requires i < j < |accounts|
    ensures accounts[i] < accounts[j]
  {
    if i + 1 < j {
      Ascending(accounts, i, j - 1);
    }
    assert accounts[j - 1] < accounts[j];
  }

  /** Uniqueness is checked by requiring the list to be strictly ascending. */
  method VerifySorted(accounts: seq<Address>) returns (ok: bool)
    ensures ok == VerifyAccounts(accounts)
    ensures ok <==> accounts != [] && forall i, j :: 0 <= i < j < |accounts| ==> accounts[i] < accounts[j]
  {
    if |accounts| == 0 {
      return false;
    }
    var prev := accounts[0];
    for i := 1 to |accounts|
      invariant prev == accounts[i - 1]
      invariant forall k :: 1 <= k < i ==> accounts[k - 1] < accounts[k]
    {
      if accounts[i] <= prev {
        return false;
      }
      prev := accounts[i];
    }
    forall i, j | 0 <= i < j < |accounts| ensures accounts[i] < accounts[j] {
      Ascending(accounts, i, j);
    }
    return true;
  }
}
