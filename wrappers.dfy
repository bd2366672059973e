/** Failure-carrying results shared by every module of the registry model. */
module Wrappers {

  datatype Option<+T> = None | Some(value: T)

  /** The Go convention `(value, err)`: exactly one of the two is meaningful. */
  datatype Result<+T, +E> = Success(value: T) | Failure(error: E)
}
