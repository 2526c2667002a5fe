/** Optional and fallible values. */
module Wrappers {

  datatype Option<+T> = None | Some(value: T) {

    function GetOr(otherwise: T): T {
      if Some? then value else otherwise
    }
  }

  datatype Result<+T, +E> = Ok(value: T) | Err(error: E) {

    predicate IsFailure() {
      Err?
    }

    function PropagateFailure<U>(): Result<U, E>
      requires Err?
    {
      Err(error)
    }

    function Extract(): T
      requires Ok?
    {
      value
    }
  }
}
