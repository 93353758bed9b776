/** Failure-compatible wrappers used throughout the model: an optional value,
    a value-or-error result, and a pass-or-fail outcome of a check. */
module Wrappers {

  datatype Option<+T> = None | Some(value: T) {
    function GetOr(default: T): T {
      match this
      case Some(v) => v
      case None => default
    }
  }

  datatype Result<+T, +E> = Ok(value: T) | Err(error: E) {
    predicate IsFailure() {
      Err?
    }

    function PropagateFailure<U>(): Result<U, E>
      requires Err?
    {
      Err(error)
    }

    function Extract(): T
      requires Ok?
    {
      value
    }
  }

  /** The outcome of a check that either passes or names what failed. */
  datatype Outcome<+E> = Pass | Fail(error: E)
}
