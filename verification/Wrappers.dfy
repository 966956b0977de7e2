/** The two result types shared by every component of the proxy model. */
module Wrappers {
  /** JavaScript's `null` or a value. */
  datatype Option<+T> = None | Some(value: T)

  /** The result of an operation that throws instead of returning. */
  datatype Result<+T, +E> = Success(value: T) | Failure(error: E)
}
