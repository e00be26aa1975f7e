/** Failure-carrying values shared by the services: a nullable value, a value-or-error
    result, and the outcome of an operation that returns nothing on success. */
module Wrappers {

  /** A Java reference that may be null. */
  datatype Option<+T> = None | Some(value: T)

  /** A call that either returns a value or throws the service's IllegalArgumentException. */
  datatype Result<+T, +E> = Ok(value: T) | Err(error: E)

  /** A void call that either completes or throws. */
  datatype Outcome<+E> = Pass | Fail(error: E)
}
