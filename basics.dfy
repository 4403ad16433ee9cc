/** Small value types shared by every module of the gateway model. */
module Basics {

  /** A value that may be absent (JavaScript's `undefined` / `null`). */
  datatype Option<+T> = None | Some(value: T)

  /** The outcome of an operation that may throw. */
  datatype Result<+T, +E> = Success(value: T) | Failure(error: E)

  /** One element of a `Uint8Array`. */
  type byte = b: int | 0 <= b < 0x100
}
