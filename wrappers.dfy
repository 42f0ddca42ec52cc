/** Failure-carrying return values: Go's `(value, error)` pairs become a `Result`,
    and a value that may be absent becomes an `Option`. */
module Wrappers {

  datatype Option<+T> = None | Some(value: T)

  /** `Ok` stands for a nil error with a value, `Err` for a non-nil error.
      The three members let `:-` return an error early, as Go's
      `if err != nil { return ..., err }` does. */
  datatype Result<+T, +E> = Ok(value: T) | Err(error: E) {
    predicate IsFailure() {
      Err?
    }

    function PropagateFailure<U>(): Result<U, E>
      requires Err?
    {
      Err(error)
    }

    function Extract(): T
      requires Ok?
    {
      value
    }
  }
}
