/** P1Liquidation: an under-collateralized account is taken over by another one. */
module Liquidation {
  import opened Options
  import opened BalanceMath
  import opened Ledger
  import opened Collateral
  import opened TakeOver

  const FLAGS: set<nat> := {1}

  predicate VerifyTrade(data: TradeData, maker: Balance, price: nat, minCollateral: nat) {
    && !IsCollateralized(maker, price, minCollateral)
    && (!data.allOrNothing || maker.position >= data.amount)
    && data.isBuy == maker.positionIsPositive
    && !BothNegative(maker)
  }

  /** The trader contract's answer, from the storage as it is in the middle of the batch. */
  function Execute(data: TradeData, view: TraderView): Option<TradeResult> {
    var _ :- Require(view.sender in view.state.globalOperators);
    var maker := view.state.BalanceOf(view.maker);
    var _ :- Require(VerifyTrade(data, maker, view.price, view.state.minCollateral));
    var amount := BaseMath.Min(data.amount, maker.position);
    var marginAmount :- MarginFor(maker, amount, data.isBuy);
    Some(TradeResult(marginAmount, amount, data.isBuy, FLAGS))
  }

  /**
   Exactly which liquidations are accepted: of an account that breaks the collateral rule, in the direction that
   reduces its position, when an operator for everybody calls. A short with negative margin is refused.
   */
  lemma LiquidationIsAcceptedExactly(data: TradeData, view: TraderView)
    ensures var maker := view.state.BalanceOf(view.maker);
      Execute(data, view).Some? <==>
        && view.sender in view.state.globalOperators
        && !MeetsRequirement(maker.Margin(), maker.Position(), view.price, view.state.minCollateral)
        && (maker.Position() >= 0 || maker.Margin() >= 0)
        && maker.position > 0 && data.isBuy == maker.positionIsPositive
        && (data.allOrNothing ==> data.amount <= maker.position)
  {
    CollateralizedExactly(view.state.BalanceOf(view.maker), view.price, view.state.minCollateral);
  }

  /**
   What a liquidation does to both sides, once the ledger has applied it: the maker's position shrinks by as much
   of the request as it has, all of it if that was demanded, and the taker gets this with the margin.
   */
  lemma MakerShrinks(data: TradeData, view: TraderView)
    requires Execute(data, view).Some? && view.maker != view.taker
    requires ApplyResult(view.state, view.maker, view.taker, Execute(data, view).value).Some?
    ensures var ledger, r := view.state, Execute(data, view).value;
      var ledger' := ApplyResult(ledger, view.maker, view.taker, r).value;
      var maker, taker := ledger.BalanceOf(view.maker), ledger.BalanceOf(view.taker);
      var maker', taker' := ledger'.BalanceOf(view.maker), ledger'.BalanceOf(view.taker);
      && r.positionAmount <= data.amount && r.positionAmount <= maker.position
      && (r.positionAmount == data.amount || (r.positionAmount == maker.position && !data.allOrNothing))
      && ShrinksBy(maker, maker', r.positionAmount)
      && taker'.Position() - taker.Position() == maker.Position() - maker'.Position()
      && taker.Margin() - taker'.Margin() == maker'.Margin() - maker.Margin()
           == (if data.isBuy then 1 else -1) * r.marginAmount
  {
    ApplyResultMoves(view.state, view.maker, view.taker, Execute(data, view).value);
  }

  /** The maker's balance after a liquidation that the contract accepts. */
  lemma ExecuteMovesMaker(data: TradeData, view: TraderView)
    requires Execute(data, view).Some?
    ensures var maker := view.state.BalanceOf(view.maker);
      var r := Execute(data, view).value;
      && 0 < maker.position
      && r.positionAmount == BaseMath.Min(data.amount, maker.position)
      && MoveBalance(maker, r, r.isBuy) == AfterTakeOver(maker, r.positionAmount, FLAGS)
  {
  }

  /** An account that fails the requirement has debt, and the requirement is not zero. */
  lemma UndercollateralizedHasDebt(b: Balance, price: nat, minCollateral: nat)
    requires !IsCollateralized(b, price, minCollateral)
    ensures NegativeValue(b, price) > 0 && minCollateral > 0
  {
  }

  /**
   For a maker that passes the contract's checks, whatever amount is requested, the result is accepted
   by the final check exactly when the maker has positive-side value or is taken over completely.
   */
  lemma EveryAmountAccepted(data: TradeData, view: TraderView)
    requires view.sender in view.state.globalOperators && view.price > 0
    requires var maker := view.state.BalanceOf(view.maker);
      VerifyTrade(data, maker, view.price, view.state.minCollateral) && maker.position > 0
    ensures Execute(data, view).Some?
    ensures var maker := view.state.BalanceOf(view.maker);
      var r := Execute(data, view).value;
      var after := MoveBalance(maker, r, r.isBuy);
      && after.Some?
      && (AccountAllowed(maker, after.value, view.price, view.state.minCollateral)
          <==> PositiveValue(maker, view.price) > 0 || data.amount >= maker.position)
      && (data.amount >= maker.position ==> after.value == EMPTY_BALANCE)
  {
    var maker := view.state.BalanceOf(view.maker);
    UndercollateralizedHasDebt(maker, view.price, view.state.minCollateral);
    var amount := BaseMath.Min(data.amount, maker.position);
    MarginForBounds(maker, amount);
    ExecuteMovesMaker(data, view);
    MakerAcceptedExactly(maker, amount, FLAGS, view.price, view.state.minCollateral);
  }

  /** A short of two without margin: the contract hands on one of them, and the final check refuses the batch. */
  lemma PartOfBareShortIsRefused(view: TraderView)
    requires view.state.BalanceOf(view.maker) == Balance(false, false, 0, 2)
    requires view.sender in view.state.globalOperators && view.price == 1 && view.state.minCollateral == BaseMath.BASE
    ensures var maker := view.state.BalanceOf(view.maker);
      var result := Execute(TradeData(1, false, false), view);
      && result == Some(TradeResult(0, 1, false, FLAGS))
      && MoveBalance(maker, result.value, false) == Some(Balance(false, false, 0, 1))
      && !AccountAllowed(maker, Balance(false, false, 0, 1), view.price, view.state.minCollateral)
  {
    var bare, left := Balance(false, false, 0, 2), Balance(false, false, 0, 1);
    assert GetPositiveAndNegativeValue(bare, 1) == (0, 2);
    assert GetPositiveAndNegativeValue(left, 1) == (0, 1);
    assert !IsCollateralized(bare, 1, BaseMath.BASE) && !IsCollateralized(left, 1, BaseMath.BASE);
    assert MarginFor(bare, 1, false) == Some(0);
  }
}
