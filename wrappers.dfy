/** Optional values and failure-compatible results shared by the modules of this model. */
module Wrappers {

  /** A value that may be absent (Java's Optional, or a null pointer). */
  datatype Option<+T> = None | Some(value: T)

  /** The outcome of an operation that either completes with a value or throws. */
  datatype Result<+T, +E> = Ok(value: T) | Err(error: E) {

    predicate IsFailure() {
      Err?
    }

    function PropagateFailure<U>(): Result<U, E>
      requires Err?
    {
      Err(error)
    }

    function Extract(): T
      requires Ok?
    {
      value
    }
  }
}
