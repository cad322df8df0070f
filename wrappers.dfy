/** Failure-carrying values: JavaScript's `undefined` and thrown exceptions become these. */
module Wrappers {

  /** A value that may be absent (`undefined` in the source). */
  datatype Option<+T> = None | Some(value: T)

  /** The value of an expression that may throw instead of returning. */
  datatype Result<+T, +E> = Ok(value: T) | Err(error: E)

  /** The outcome of a statement that returns nothing but may throw. */
  datatype Outcome<+E> = Pass | Fail(error: E)
}
