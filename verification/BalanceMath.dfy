/** Account balances as values, and the arithmetic on them. */
module BalanceMath {
  import opened Options
  import opened SignedMath
  import opened BaseMath

  const UINT120: int := 0x1_000000_000000_000000_000000_000000

  type Uint120 = n: nat | n < UINT120

  /** Sign-magnitude margin and position. Either may be a negative zero. */
  datatype Balance = Balance(marginIsPositive: bool, positionIsPositive: bool, margin: Uint120, position: Uint120) {
    function GetMargin(): Int {
      Int(margin, marginIsPositive)
    }

    function GetPosition(): Int {
      Int(position, positionIsPositive)
    }

    function Margin(): int {
      GetMargin().ToInt()
    }

    function Position(): int {
      GetPosition().ToInt()
    }
  }

  const EMPTY_BALANCE := Balance(false, false, 0, 0)

  function SetMargin(b: Balance, newMargin: Int): Option<Balance> {
    if newMargin.value < UINT120 then
      Some(b.(margin := newMargin.value, marginIsPositive := newMargin.isPositive))
    else
      None
  }

  function SetPosition(b: Balance, newPosition: Int): Option<Balance> {
    if newPosition.value < UINT120 then
      Some(b.(position := newPosition.value, positionIsPositive := newPosition.isPositive))
    else
      None
  }

  function AddToMargin(b: Balance, amount: nat): (r: Option<Balance>)
    ensures r.Some? <==> -UINT120 < b.Margin() + amount < UINT120
    ensures r.Some? ==> r.value.Margin() == b.Margin() + amount && r.value.GetPosition() == b.GetPosition()
  {
    SetMargin(b, Add(b.GetMargin(), amount))
  }

  function SubFromMargin(b: Balance, amount: nat): (r: Option<Balance>)
    ensures r.Some? <==> -UINT120 < b.Margin() - amount < UINT120
    ensures r.Some? ==> r.value.Margin() == b.Margin() - amount && r.value.GetPosition() == b.GetPosition()
  {
    SetMargin(b, Sub(b.GetMargin(), amount))
  }

  function AddToPosition(b: Balance, amount: nat): (r: Option<Balance>)
    ensures r.Some? <==> -UINT120 < b.Position() + amount < UINT120
    ensures r.Some? ==> r.value.Position() == b.Position() + amount && r.value.GetMargin() == b.GetMargin()
  {
    SetPosition(b, Add(b.GetPosition(), amount))
  }

  function SubFromPosition(b: Balance, amount: nat): (r: Option<Balance>)
    ensures r.Some? <==> -UINT120 < b.Position() - amount < UINT120
    ensures r.Some? ==> r.value.Position() == b.Position() - amount && r.value.GetMargin() == b.GetMargin()
  {
    SetPosition(b, Sub(b.GetPosition(), amount))
  }

  /** Base values with 18 extra decimals, so nothing is rounded: their difference is the account's equity. */
  function GetPositiveAndNegativeValue(b: Balance, price: nat): (r: (nat, nat))
    ensures r.0 - r.1 == BASE * b.Margin() + price * b.Position()
  {
    var positive := if b.marginIsPositive then b.margin * BASE else 0;
    var negative := if b.marginIsPositive then 0 else b.margin * BASE;
    PositionValue(b, price);
    if b.positionIsPositive then
      (positive + b.position * price, negative)
    else
      (positive, negative + b.position * price)
  }

  lemma PositionValue(b: Balance, price: nat)
    ensures b.position * price >= 0
    ensures price * b.Position() == if b.positionIsPositive then b.position * price else -(b.position * price)
  {
  }

  predicate IsCollateralized(b: Balance, price: nat, minCollateral: nat) {
    var (positive, negative) := GetPositiveAndNegativeValue(b, price);
    positive * BASE >= negative * minCollateral
  }
}
