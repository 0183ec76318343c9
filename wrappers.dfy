/** Java's Optional, and the two shapes a service call can end in: a value or a thrown exception. */
module Wrappers {

  datatype Option<+T> = None | Some(value: T)

  /** A call that returns a value of type R or throws an exception described by E. */
  datatype Result<+R, +E> = Success(value: R) | Failure(error: E)

  /** A `void` call: it returns normally or throws. */
  datatype Outcome<+E> = Pass | Fail(error: E)
}
