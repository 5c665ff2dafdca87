/** Java's `null`-or-value and value-or-exception, as datatypes. */
module Wrappers {
  datatype Option<T> = None | Some(value: T)

  /** A Java call that either returns a value or throws; `Failure` names the exception. */
  datatype Result<T> = Success(value: T) | Failure(error: string)

  /** A `void` Java call that either returns or throws. */
  datatype Outcome = Pass | Fail(error: string)
}
