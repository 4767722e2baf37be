/** Failure-carrying result types shared by the injector model. */
module Wrappers {

  /** A present or absent value (Python's `Optional`). */
  datatype Option<+T> = None | Some(value: T)

  /** The value of a call that either returns or raises. */
  datatype Result<+R, +E> = Success(value: R) | Failure(error: E)

  /** The value of a call that returns nothing or raises. */
  datatype Outcome<+E> = Pass | Fail(error: E)
}
