/** Option, Result and Outcome: the model's stand-ins for C# null, exceptions and void-or-throw. */
module Wrappers {

  /** A value that may be absent; `None` plays the part of a C# null. */
  datatype Option<+T> = None | Some(value: T)

  /** Either a value or the error (exception) that an operation raised. */
  datatype Result<+R, +E> = Success(value: R) | Failure(error: E)

  /** An operation that returns nothing but may raise an error. */
  datatype Outcome<+E> = Pass | Fail(error: E)
}
