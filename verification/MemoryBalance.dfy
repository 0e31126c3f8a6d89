/** The balance struct as the contracts hold it in memory: an object that is updated in place. */
module MemoryBalance {
  import opened SignedMath
  import Values = BalanceMath

  /** The in-memory struct. Its methods work in place; a failed range check leaves it as it was. */
  class MemBalance {
    var marginIsPositive: bool
    var positionIsPositive: bool
    var margin: Values.Uint120
    var position: Values.Uint120

    function Value(): Values.Balance
      reads this
    {
      Values.Balance(marginIsPositive, positionIsPositive, margin, position)
    }

    constructor (b: Values.Balance)
      ensures Value() == b
    {
      marginIsPositive, positionIsPositive := b.marginIsPositive, b.positionIsPositive;
      margin, position := b.margin, b.position;
    }

    /** A distinct struct with the same contents. */
    method Copy() returns (c: MemBalance)
      ensures fresh(c) && c.Value() == Value()
    {
      c := new MemBalance(Value());
    }

    method SetMargin(newMargin: Int) returns (ok: bool)
      modifies this
      ensures ok == Values.SetMargin(old(Value()), newMargin).Some?
      ensures Value() == if ok then Values.SetMargin(old(Value()), newMargin).value else old(Value())
    {
      ok := newMargin.value < Values.UINT120;
      if ok {
        margin, marginIsPositive := newMargin.value, newMargin.isPositive;
      }
    }

    method SetPosition(newPosition: Int) returns (ok: bool)
      modifies this
      ensures ok == Values.SetPosition(old(Value()), newPosition).Some?
      ensures Value() == if ok then Values.SetPosition(old(Value()), newPosition).value else old(Value())
    {
      ok := newPosition.value < Values.UINT120;
      if ok {
        position, positionIsPositive := newPosition.value, newPosition.isPositive;
      }
    }

    method AddToMargin(amount: nat) returns (ok: bool)
      modifies this
      ensures ok == Values.AddToMargin(old(Value()), amount).Some?
      ensures Value() == if ok then Values.AddToMargin(old(Value()), amount).value else old(Value())
    {
      ok := SetMargin(Add(Value().GetMargin(), amount));
    }

    method SubFromMargin(amount: nat) returns (ok: bool)
      modifies this
      ensures ok == Values.SubFromMargin(old(Value()), amount).Some?
      ensures Value() == if ok then Values.SubFromMargin(old(Value()), amount).value else old(Value())
    {
      ok := SetMargin(Sub(Value().GetMargin(), amount));
    }

    method AddToPosition(amount: nat) returns (ok: bool)
      modifies this
      ensures ok == Values.AddToPosition(old(Value()), amount).Some?
      ensures Value() == if ok then Values.AddToPosition(old(Value()), amount).value else old(Value())
    {
      ok := SetPosition(Add(Value().GetPosition(), amount));
    }

    method SubFromPosition(amount: nat) returns (ok: bool)
      modifies this
      ensures ok == Values.SubFromPosition(old(Value()), amount).Some?
      ensures Value() == if ok then Values.SubFromPosition(old(Value()), amount).value else old(Value())
    {
      ok := SetPosition(Sub(Value().GetPosition(), amount));
    }
  }
}
