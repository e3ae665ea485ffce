/** Option and Result wrappers shared by the codec and the sampler. */
module Wrappers {

  /** A value that may be absent, as Kotlin's nullable `T?`. */
  datatype Option<+T> = None | Some(value: T)

  /** The value an operation returns, or the exception it throws instead. */
  datatype Result<+T, +E> = Success(value: T) | Failure(error: E)
}
