/** The collateral check at the end of a batch is exact, and what it guarantees for each account. */
module Collateral {
  import opened BaseMath
  import opened BalanceMath
  import opened Ledger

  /**
   The collateral rule on signed amounts, with prices and the requirement in units of 1/BASE: what an account
   has must be worth at least the required multiple of what it owes. Who owes both margin and position has
   nothing to set against it.
   */
  ghost predicate MeetsRequirement(margin: int, position: int, price: nat, minCollateral: nat) {
    if margin >= 0 && position >= 0 then true
    else if position >= 0 then position * price * BASE >= -margin * BASE * minCollateral
    else if margin >= 0 then margin * BASE * BASE >= -position * price * minCollateral
    else minCollateral == 0
  }

  ghost predicate IsSafe(b: Balance, price: nat, minCollateral: nat) {
    MeetsRequirement(b.Margin(), b.Position(), price, minCollateral)
  }

  lemma CollateralizedExactly(b: Balance, price: nat, minCollateral: nat)
    ensures IsCollateralized(b, price, minCollateral) <==> IsSafe(b, price, minCollateral)
  {
    ValuesExactly(b, price);
    var negative := NegativeValue(b, price);
    if b.Margin() < 0 && b.Position() < 0 {
      NegativeTimes(-b.Margin(), -b.Position(), price);
      if minCollateral > 0 {
        ProductPositive(negative, minCollateral);
      }
    }
  }

  lemma NegativeTimes(margin: nat, position: nat, price: nat)
    requires margin > 0
    ensures margin * BASE + position * price > 0
  {
  }

  /** The two values are the positive and the negative one of margin and position, added up. */
  lemma ValuesExactly(b: Balance, price: nat)
    ensures PositiveValue(b, price) == PositivePart(b.Margin()) * BASE + PositivePart(b.Position()) * price
    ensures NegativeValue(b, price) == PositivePart(-b.Margin()) * BASE + PositivePart(-b.Position()) * price
  {
  }

  ghost function PositivePart(x: int): nat {
    if x > 0 then x else 0
  }

  function PositiveValue(b: Balance, price: nat): nat {
    GetPositiveAndNegativeValue(b, price).0
  }

  function NegativeValue(b: Balance, price: nat): nat {
    GetPositiveAndNegativeValue(b, price).1
  }

  /** The ratio of positive to negative value has not dropped, compared as exact fractions. */
  predicate RatioKept(initial: Balance, current: Balance, price: nat) {
    PositiveValue(current, price) * NegativeValue(initial, price)
      >= PositiveValue(initial, price) * NegativeValue(current, price)
  }

  /** The rule the contract's documentation states for an account left under-collateralized. */
  predicate NoWorse(initial: Balance, current: Balance, price: nat) {
    && PositiveValue(current, price) > 0
    && NegativeValue(initial, price) > 0
    && current.position <= initial.position
    && current.positionIsPositive == initial.positionIsPositive
    && RatioKept(initial, current, price)
  }

  /** Dividing first loses nothing: on the side of the margin, values are multiples of BASE. */
  lemma MarginSideIsMultiple(b: Balance, price: nat)
    ensures b.positionIsPositive ==> NegativeValue(b, price) % BASE == 0
    ensures !b.positionIsPositive ==> PositiveValue(b, price) % BASE == 0
  {
  }

  lemma DivideFirstCompares(x: nat, y: nat, x': nat, y': nat)
    requires x % BASE == 0 && x' % BASE == 0
    ensures BaseDivMul(x, y) <= BaseDivMul(x', y') <==> x * y <= x' * y'
  {
  }

  /** The comparison in the code is the comparison of exact ratios, whenever the positions have the same sign. */
  lemma DivideFirstIsExact(initial: Balance, current: Balance, price: nat)
    requires current.positionIsPositive == initial.positionIsPositive
    ensures
      var (currentPos, currentNeg) := GetPositiveAndNegativeValue(current, price);
      var (initialPos, initialNeg) := GetPositiveAndNegativeValue(initial, price);
      (if current.positionIsPositive then
         BaseDivMul(currentNeg, initialPos) <= BaseDivMul(initialNeg, currentPos)
       else
         BaseDivMul(initialPos, currentNeg) <= BaseDivMul(currentPos, initialNeg))
      <==> currentPos * initialNeg >= initialPos * currentNeg
  {
    var (currentPos, currentNeg) := GetPositiveAndNegativeValue(current, price);
    var (initialPos, initialNeg) := GetPositiveAndNegativeValue(initial, price);
    MarginSideIsMultiple(initial, price);
    MarginSideIsMultiple(current, price);
    if current.positionIsPositive {
      DivideFirstCompares(currentNeg, initialPos, initialNeg, currentPos);
    } else {
      DivideFirstCompares(initialPos, currentNeg, currentPos, initialNeg);
    }
  }

  /** The branches of the code amount to the documented rule, in both directions. */
  lemma AllowedExactly(initial: Balance, current: Balance, price: nat, minCollateral: nat)
    ensures AccountAllowed(initial, current, price, minCollateral) <==>
      IsSafe(current, price, minCollateral) || NoWorse(initial, current, price)
  {
    CollateralizedExactly(current, price, minCollateral);
    if current.positionIsPositive == initial.positionIsPositive {
      DivideFirstIsExact(initial, current, price);
    }
  }

  /** An account that meets the requirement and keeps its ratio still meets it. */
  lemma RatioKeepsCollateral(pos: nat, neg: nat, pos': nat, neg': nat, minCollateral: nat)
    requires pos * BASE >= neg * minCollateral
    requires pos' * neg >= pos * neg'
    requires neg > 0
    ensures pos' * BASE >= neg' * minCollateral
  {
  }

  lemma MulStrict(a: nat, b: nat, k: nat)
    requires a < b && k > 0
    ensures a * k < b * k
  {
  }

  /** So the exception never lets an account become under-collateralized. */
  lemma NeverBecomesUndercollateralized(initial: Balance, current: Balance, price: nat, minCollateral: nat)
    requires AccountAllowed(initial, current, price, minCollateral)
    requires IsSafe(initial, price, minCollateral)
    ensures IsSafe(current, price, minCollateral)
  {
    AllowedExactly(initial, current, price, minCollateral);
    CollateralizedExactly(initial, price, minCollateral);
    CollateralizedExactly(current, price, minCollateral);
    if NoWorse(initial, current, price) {
      RatioKeepsCollateral(PositiveValue(initial, price), NegativeValue(initial, price),
        PositiveValue(current, price), NegativeValue(current, price), minCollateral);
    }
  }

  /** Keeping the ratio is transitive through an account with debt. */
  lemma RatioTransitive(a: Balance, b: Balance, c: Balance, price: nat)
    requires RatioKept(a, b, price) && RatioKept(b, c, price)
    requires NegativeValue(b, price) > 0
    ensures RatioKept(a, c, price)
  {
    CrossTransitive(PositiveValue(a, price), NegativeValue(a, price), PositiveValue(b, price),
      NegativeValue(b, price), PositiveValue(c, price), NegativeValue(c, price));
  }

  lemma CrossTransitive(p: nat, n: nat, p': nat, n': nat, p'': nat, n'': nat)
    requires p' * n >= p * n' && p'' * n' >= p' * n''
    requires n' > 0
    ensures p'' * n >= p * n''
  {
  }

  // ---------- Whole batches ----------

  /** Trades never touch an account that is not in the list. */
  lemma {:induction false} TradesTouchOnlyListed(
    s: State, env: Env, sender: Address, accounts: seq<Address>, trades: seq<TradeArg>, flags: set<nat>, a: Address)
    requires RunTrades(s, env, sender, accounts, trades, flags).Some?
    requires a !in accounts
    ensures RunTrades(s, env, sender, accounts, trades, flags).value.BalanceOf(a) == s.BalanceOf(a)
    decreases |trades|
  {
    if trades != [] {
      var (s', flags') := RunTrade(s, env, sender, accounts, trades[0], flags).value;
      TradesTouchOnlyListed(s', env, sender, accounts, trades[1..], flags', a);
    }
  }

  lemma {:induction false} SettlesOnlyListed(s: State, newIndex: Index, accounts: seq<Address>, a: Address)
    requires SettleAccounts(s, newIndex, accounts).Some?
    requires a !in accounts
    ensures var s' := SettleAccounts(s, newIndex, accounts).value;
      s'.BalanceOf(a) == s.BalanceOf(a) && s'.IndexOf(a) == s.IndexOf(a)
    decreases |accounts|
  {
    if accounts != [] {
      SettlesOnlyListed(SettleAccount(s, newIndex, accounts[0]).value, newIndex, accounts[1..], a);
    }
  }

  /**
   An accepted batch, whatever its traders returned: every listed account meets the requirement afterwards,
   or did not after settlement and is no worse off; and no other balance changed.
   */
  lemma AcceptedBatchIsSafe(s: State, env: Env, sender: Address, accounts: seq<Address>, trades: seq<TradeArg>)
    requires Trade(s, env, sender, accounts, trades).Some?
    ensures ExecuteBatch(s, env, sender, accounts, trades).Some?
    ensures var s' := Trade(s, env, sender, accounts, trades).value;
      var (settled, _, _) := ExecuteBatch(s, env, sender, accounts, trades).value;
      && (forall i :: 0 <= i < |accounts| ==>
          SafeOutcome(settled.BalanceOf(accounts[i]), s'.BalanceOf(accounts[i]), env.price, s.minCollateral))
      && forall a: Address :: a !in accounts ==> s'.BalanceOf(a) == s.BalanceOf(a)
  {
    var (settled, traded, context) := ExecuteBatch(s, env, sender, accounts, trades).value;
    assert context.price == env.price && context.minCollateral == s.minCollateral;
    forall i | 0 <= i < |accounts|
      ensures SafeOutcome(settled.BalanceOf(accounts[i]), traded.BalanceOf(accounts[i]), env.price, s.minCollateral)
    {
      var b, b' := settled.BalanceOf(accounts[i]), traded.BalanceOf(accounts[i]);
      assert AccountAllowed(b, b', env.price, s.minCollateral);
      AllowedIsSafe(b, b', env.price, s.minCollateral);
    }
    forall a: Address | a !in accounts ensures traded.BalanceOf(a) == s.BalanceOf(a) {
      var (s1, _) := LoadContext(s, env).value;
      SettlesOnlyListed(s1, context.index, accounts, a);
      TradesTouchOnlyListed(settled, env, sender, accounts, trades, {}, a);
    }
  }

  /** A batch that can be executed is accepted exactly if every listed account ends safely. */
  lemma BatchAcceptedExactly(s: State, env: Env, sender: Address, accounts: seq<Address>, trades: seq<TradeArg>)
    requires ExecuteBatch(s, env, sender, accounts, trades).Some?
    ensures var (settled, traded, _) := ExecuteBatch(s, env, sender, accounts, trades).value;
      Trade(s, env, sender, accounts, trades).Some? <==>
        forall i :: 0 <= i < |accounts| ==>
          SafeOutcome(settled.BalanceOf(accounts[i]), traded.BalanceOf(accounts[i]), env.price, s.minCollateral)
  {
    var (settled, traded, _) := ExecuteBatch(s, env, sender, accounts, trades).value;
    forall i | 0 <= i < |accounts|
      ensures AccountAllowed(
          settled.BalanceOf(accounts[i]), traded.BalanceOf(accounts[i]), env.price, s.minCollateral)
        <==> SafeOutcome(
          settled.BalanceOf(accounts[i]), traded.BalanceOf(accounts[i]), env.price, s.minCollateral)
    {
      var b, b' := settled.BalanceOf(accounts[i]), traded.BalanceOf(accounts[i]);
      AllowedExactly(b, b', env.price, s.minCollateral);
      if AccountAllowed(b, b', env.price, s.minCollateral) {
        AllowedIsSafe(b, b', env.price, s.minCollateral);
      }
    }
  }

  ghost predicate SafeOutcome(initial: Balance, current: Balance, price: nat, minCollateral: nat) {
    || IsSafe(current, price, minCollateral)
    || (!IsSafe(initial, price, minCollateral) && NoWorse(initial, current, price))
  }

  lemma AllowedIsSafe(initial: Balance, current: Balance, price: nat, minCollateral: nat)
    requires AccountAllowed(initial, current, price, minCollateral)
    ensures SafeOutcome(initial, current, price, minCollateral)
  {
    AllowedExactly(initial, current, price, minCollateral);
    if IsSafe(initial, price, minCollateral) {
      NeverBecomesUndercollateralized(initial, current, price, minCollateral);
    }
  }
}
