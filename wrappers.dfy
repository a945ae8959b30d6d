/** Option and Result values for the error paths of the modelled code. */
module Wrappers {

  /** An absent or present value (a Python `None`, a Go zero value, a missing key). */
  datatype Option<+T> = None | Some(value: T)

  /** The outcome of an operation that can fail (a Go `error`, a Python exception). */
  datatype Result<+T, +E> = Success(value: T) | Failure(error: E)
}
