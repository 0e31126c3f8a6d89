/** Fixed-point arithmetic with 18 decimals, and fractions rounded down or up. */
module BaseMath {
  import opened Options

  const BASE: nat := 1_000_000_000_000_000_000

  /** The floor of value * baseValue / BASE. */
  function BaseMul(value: nat, baseValue: nat): (r: nat)
    ensures r * BASE <= value * baseValue < r * BASE + BASE
  {
    value * baseValue / BASE
  }

  /** The ceiling of value * baseValue / BASE. */
  function BaseMulRoundUp(value: nat, baseValue: nat): (r: nat)
    ensures r * BASE - BASE < value * baseValue <= r * BASE
  {
    if value == 0 || baseValue == 0 then
      0
    else
      ProductPositive(value, baseValue);
      (value * baseValue - 1) / BASE + 1
  }

  /** Divides before it multiplies: exact only on multiples of BASE. */
  function BaseDivMul(value: nat, baseValue: nat): (r: nat)
    ensures value % BASE == 0 ==> r * BASE == value * baseValue
  {
    DivideFirst(value, baseValue);
    (value / BASE) * baseValue
  }

  /** BASE * BASE / baseValue, reverting on zero. */
  function BaseReciprocal(baseValue: nat): (r: Option<nat>)
    ensures r.None? <==> baseValue == 0
  {
    if baseValue == 0 then None else Some(BASE * BASE / baseValue)
  }

  /** The floor of target * numerator / denominator. Division by zero reverts. */
  function GetFraction(target: nat, numerator: nat, denominator: nat): (r: Option<nat>)
    ensures r.None? <==> denominator == 0
    ensures r.Some? ==> r.value * denominator <= target * numerator < r.value * denominator + denominator
  {
    if denominator == 0 then
      None
    else
      FloorDivision(target * numerator, denominator);
      Some(target * numerator / denominator)
  }

  /** The ceiling of target * numerator / denominator. Division by zero reverts. */
  function GetFractionRoundUp(target: nat, numerator: nat, denominator: nat): (r: Option<nat>)
    ensures r.None? <==> denominator == 0
    ensures r.Some? ==> r.value * denominator - denominator < target * numerator <= r.value * denominator
  {
    if denominator == 0 then
      None
    else if target == 0 || numerator == 0 then
      Some(0)
    else
      ProductPositive(target, numerator);
      FloorDivision(target * numerator - 1, denominator);
      Some((target * numerator - 1) / denominator + 1)
  }

  function Min(a: nat, b: nat): (r: nat)
    ensures r <= a && r <= b && (r == a || r == b)
  {
    if a < b then a else b
  }

  lemma ProductPositive(a: nat, b: nat)
    requires a > 0 && b > 0
    ensures a * b > 0
  {
  }

  lemma Scale(k: nat, x: int, y: int)
    requires x <= y
    ensures k * x <= k * y
  {
  }

  lemma FloorDivision(n: nat, d: nat)
    requires d > 0
    ensures n / d >= 0
    ensures (n / d) * d <= n < (n / d) * d + d
    ensures (n / d + 1) * d == (n / d) * d + d
  {
  }

  lemma DivideFirst(value: nat, baseValue: nat)
    ensures (value / BASE) * baseValue >= 0
    ensures value % BASE == 0 ==> (value / BASE) * baseValue * BASE == value * baseValue
  {
  }
}
