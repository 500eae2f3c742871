/** Option and Result, the stand-ins for Go's nil-able values and `(T, error)`
    pairs where the value is meaningless on failure. */
module Wrappers {

  datatype Option<+T> = None | Some(value: T)

  datatype Result<+T, +E> = Success(value: T) | Failure(error: E)
}
