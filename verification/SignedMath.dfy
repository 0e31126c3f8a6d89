/** Sign-magnitude integers, with both a positive and a negative zero. */
module SignedMath {
  datatype Int = Int(value: nat, isPositive: bool) {
    function ToInt(): int {
      if isPositive then value else -(value as int)
    }
  }

  function Add(sint: Int, value: nat): (r: Int)
    ensures r.ToInt() == sint.ToInt() + value
  {
    if sint.isPositive then
      Int(value + sint.value, true)
    else if sint.value < value then
      Int(value - sint.value, true)
    else
      Int(sint.value - value, false)
  }

  function Sub(sint: Int, value: nat): (r: Int)
    ensures r.ToInt() == sint.ToInt() - value
  {
    if !sint.isPositive then
      Int(value + sint.value, false)
    else if sint.value > value then
      Int(sint.value - value, true)
    else
      Int(value - sint.value, false)
  }

  function SignedAdd(augend: Int, addend: Int): (r: Int)
    ensures r.ToInt() == augend.ToInt() + addend.ToInt()
  {
    if addend.isPositive then Add(augend, addend.value) else Sub(augend, addend.value)
  }

  function SignedSub(minuend: Int, subtrahend: Int): (r: Int)
    ensures r.ToInt() == minuend.ToInt() - subtrahend.ToInt()
  {
    if subtrahend.isPositive then Sub(minuend, subtrahend.value) else Add(minuend, subtrahend.value)
  }

  /** The two zeros compare equal, so neither is greater than the other. */
  predicate Gt(a: Int, b: Int)
    ensures Gt(a, b) <==> a.ToInt() > b.ToInt()
  {
    if a.isPositive then
      if b.isPositive then a.value > b.value else a.value != 0 || b.value != 0
    else
      if b.isPositive then false else a.value < b.value
  }

  function Min(a: Int, b: Int): (r: Int)
    ensures r == a || r == b
    ensures r.ToInt() <= a.ToInt() && r.ToInt() <= b.ToInt()
  {
    if Gt(b, a) then a else b
  }

  function Max(a: Int, b: Int): (r: Int)
    ensures r == a || r == b
    ensures r.ToInt() >= a.ToInt() && r.ToInt() >= b.ToInt()
  {
    if Gt(a, b) then a else b
  }
}
