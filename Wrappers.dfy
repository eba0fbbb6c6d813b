/** Option and Result, used where the source returns null, a (value, success)
    pair, or throws an argument exception. */
module Wrappers {

  datatype Option<T> = None | Some(value: T)

  /** `Failure` carries the message of the exception the source would throw. */
  datatype Result<T> = Success(value: T) | Failure(error: string)
}
