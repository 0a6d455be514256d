/** Failure-compatible result types shared by every stage of the front end. */
module Wrappers {

  datatype Option<+T> = None | Some(value: T)

  /** `Result<T, E>` as returned by the lexers and the legacy parser. */
  datatype Result<+T, +E> = Ok(value: T) | Err(error: E) {
    predicate IsFailure() { Err? }

    function PropagateFailure<U>(): Result<U, E>
      requires Err?
    {
      Err(error)
    }

    function Extract(): T
      requires Ok?
    {
      value
    }
  }

  /** A check that either passes or names what failed. */
  datatype Outcome<+E> = Pass | Fail(error: E)
}
