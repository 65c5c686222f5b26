/** The two failure-carrying datatypes and the byte type the other modules use. */
module Wrappers {
  datatype Option<+T> = None | Some(value: T)

  type byte = b: int | 0 <= b < 256

  datatype Result<+T, +E> = Success(value: T) | Failure(error: E)
}
