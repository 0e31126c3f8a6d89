/**
 Liquidation and deleveraging hand part of a maker's position, and the same part of its margin, to
 the taker. The rounding is against the taker, so the maker's ratio cannot drop.
 */
module TakeOver {
  import opened Options
  import opened BaseMath
  import opened BalanceMath
  import opened Ledger
  import opened Collateral

  datatype TradeData = TradeData(amount: nat, isBuy: bool, allOrNothing: bool)

  /** The margin that goes with `amount` of the maker's position. */
  function MarginFor(maker: Balance, amount: nat, isBuy: bool): Option<nat> {
    if isBuy then
      GetFractionRoundUp(maker.margin, amount, maker.position)
    else
      GetFraction(maker.margin, amount, maker.position)
  }

  /** A short maker with negative margin: the case that both traders refuse. */
  predicate BothNegative(maker: Balance) {
    !(maker.marginIsPositive || maker.margin == 0 || maker.positionIsPositive || maker.position == 0)
  }

  /** The position comes closer to zero by the amount, and not to the other side. */
  ghost predicate ShrinksBy(before: Balance, after: Balance, amount: nat) {
    if before.positionIsPositive then 0 <= after.Position() == before.Position() - amount
    else 0 >= after.Position() == before.Position() + amount
  }

  /** The maker of a trade with these amounts, on the side that reduces its position. */
  function AfterTakeOver(maker: Balance, amount: nat, flags: set<nat>): Option<Balance> {
    var isBuy := maker.positionIsPositive;
    var marginAmount :- MarginFor(maker, amount, isBuy);
    MoveBalance(maker, TradeResult(marginAmount, amount, isBuy, flags), isBuy)
  }

  /** The exact proportion lies on the maker's side of the rounded margin. */
  lemma MarginForBounds(maker: Balance, amount: nat)
    requires 0 < maker.position && amount <= maker.position
    ensures var isBuy := maker.positionIsPositive;
      var m := MarginFor(maker, amount, isBuy);
      && m.Some?
      && m.value <= maker.margin
      && (amount == maker.position ==> m.value == maker.margin)
      && (isBuy ==> m.value * maker.position >= maker.margin * amount)
      && (!isBuy ==> m.value * maker.position <= maker.margin * amount)
      && (!isBuy && amount < maker.position && maker.margin > 0 ==> m.value < maker.margin)
  {
    var p, k := maker.position, MarginFor(maker, amount, maker.positionIsPositive).value;
    Scale(maker.margin, amount, p);
    if k > maker.margin {
      Scale(p, maker.margin + 1, k);
    }
    if amount == p && k < maker.margin {
      Scale(p, k + 1, maker.margin);
    }
    if !maker.positionIsPositive && amount < p && maker.margin > 0 && k >= maker.margin {
      MulStrict(amount, p, maker.margin);
      Scale(p, maker.margin, k);
    }
  }

  /** Removing a part of both values keeps the ratio when the margin is rounded in the maker's favour. */
  lemma LongRatio(position: nat, margin: nat, amount: nat, k: nat, price: nat)
    requires amount <= position && k <= margin
    requires k * position >= margin * amount
    ensures ((position - amount) * price) * (margin * BASE) >= (position * price) * ((margin - k) * BASE)
  {
  }

  lemma ShortRatio(position: nat, margin: nat, amount: nat, k: nat, price: nat)
    requires amount <= position && k <= margin
    requires k * position <= margin * amount
    ensures ((margin - k) * BASE) * (position * price) >= (margin * BASE) * ((position - amount) * price)
  {
  }

  /** Moving no more than the maker has, towards zero. */
  lemma MoveTowardsZero(maker: Balance, r: TradeResult)
    requires r.isBuy == maker.positionIsPositive
    requires r.positionAmount <= maker.position && r.marginAmount <= maker.margin
    requires r.positionAmount == maker.position ==> r.marginAmount == maker.margin
    requires if maker.positionIsPositive then !maker.marginIsPositive else maker.marginIsPositive || maker.margin == 0
    ensures var after := MoveBalance(maker, r, r.isBuy);
      && after.Some?
      && after.value.position == maker.position - r.positionAmount
      && after.value.margin == maker.margin - r.marginAmount
      && (after.value.position > 0 ==> after.value.positionIsPositive == maker.positionIsPositive)
      && (after.value.margin > 0 ==> after.value.marginIsPositive == maker.marginIsPositive)
      && (after.value.position == 0 ==> after.value == EMPTY_BALANCE)
  {
  }

  /** The shape of the maker's balance afterwards. */
  lemma AfterTakeOverShape(maker: Balance, amount: nat, flags: set<nat>)
    requires 0 < maker.position && amount <= maker.position
    requires maker.positionIsPositive ==> !maker.marginIsPositive
    requires !BothNegative(maker)
    ensures MarginFor(maker, amount, maker.positionIsPositive).Some?
    ensures var after := AfterTakeOver(maker, amount, flags);
      && after.Some?
      && after.value.position == maker.position - amount
      && after.value.margin == maker.margin - MarginFor(maker, amount, maker.positionIsPositive).value
      && (after.value.position > 0 ==> after.value.positionIsPositive == maker.positionIsPositive)
      && (after.value.margin > 0 ==> after.value.marginIsPositive == maker.marginIsPositive)
      && (after.value.position == 0 ==> after.value == EMPTY_BALANCE)
  {
    MarginForBounds(maker, amount);
    var k := MarginFor(maker, amount, maker.positionIsPositive).value;
    MoveTowardsZero(maker, TradeResult(k, amount, maker.positionIsPositive, flags));
  }

  /** A partial take-over of an account with something on its positive side leaves it no worse. */
  lemma PartialIsNoWorse(maker: Balance, amount: nat, flags: set<nat>, price: nat)
    requires price > 0 && amount < maker.position
    requires PositiveValue(maker, price) > 0 && NegativeValue(maker, price) > 0
    ensures AfterTakeOver(maker, amount, flags).Some?
    ensures NoWorse(maker, AfterTakeOver(maker, amount, flags).value, price)
  {
    AfterTakeOverShape(maker, amount, flags);
    MarginForBounds(maker, amount);
    var after := AfterTakeOver(maker, amount, flags).value;
    var k := maker.margin - after.margin;
    if maker.positionIsPositive {
      LongRatio(maker.position, maker.margin, amount, k, price);
      ProductPositive(after.position, price);
    } else {
      ShortRatio(maker.position, maker.margin, amount, k, price);
    }
  }

  /**
   Exactly when the maker passes the final check of the batch: when no collateral is required, or it had
   anything on its positive side, or the whole position was taken. Where collateral is required, a short
   without margin can only be taken over as a whole.
   */
  lemma MakerAcceptedExactly(maker: Balance, amount: nat, flags: set<nat>, price: nat, minCollateral: nat)
    requires price > 0
    requires 0 < maker.position && amount <= maker.position
    requires NegativeValue(maker, price) > 0 && !BothNegative(maker)
    ensures AfterTakeOver(maker, amount, flags).Some?
    ensures AccountAllowed(maker, AfterTakeOver(maker, amount, flags).value, price, minCollateral)
      <==> minCollateral == 0 || PositiveValue(maker, price) > 0 || amount == maker.position
    ensures amount == maker.position ==> AfterTakeOver(maker, amount, flags) == Some(EMPTY_BALANCE)
  {
    AfterTakeOverShape(maker, amount, flags);
    var after := AfterTakeOver(maker, amount, flags).value;
    AllowedExactly(maker, after, price, minCollateral);
    if minCollateral == 0 {
      NothingRequired(after, price);
    } else if amount == maker.position {
      assert GetPositiveAndNegativeValue(EMPTY_BALANCE, price) == (0, 0);
    } else if PositiveValue(maker, price) > 0 {
      PartialIsNoWorse(maker, amount, flags, price);
    } else {
      StillNothingPositive(maker, after, price, minCollateral);
    }
  }

  lemma NothingRequired(b: Balance, price: nat)
    ensures IsCollateralized(b, price, 0)
  {
  }

  lemma StillNothingPositive(maker: Balance, after: Balance, price: nat, minCollateral: nat)
    requires price > 0 && minCollateral > 0
    requires 0 < after.position <= maker.position && after.margin <= maker.margin
    requires after.positionIsPositive == maker.positionIsPositive
    requires PositiveValue(maker, price) == 0
    requires !BothNegative(maker)
    ensures !IsCollateralized(after, price, minCollateral)
    ensures PositiveValue(after, price) == 0
  {
  }
}
