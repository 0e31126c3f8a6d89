/** The outcome of an operation that may revert. `None` is a revert. */
module Options {
  datatype Option<+T> = None | Some(value: T) {
    predicate IsFailure() {
      None?
    }

    function PropagateFailure<U>(): Option<U>
      requires None?
    {
      None
    }

    function Extract(): T
      requires Some?
    {
      value
    }
  }

  /** Solidity's `require`: continue when the condition holds, revert otherwise. */
  function Require(condition: bool): (r: Option<()>)
    ensures r.Some? <==> condition
  {
    if condition then Some(()) else None
  }
}
