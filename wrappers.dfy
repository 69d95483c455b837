/** Option, Result and Outcome: the model's stand-ins for PHP's null and for
    the exceptions the library throws. */
module Wrappers {

  /** A value or PHP's null. */
  datatype Option<+T> = None | Some(value: T)

  /** A returned value or a thrown exception. */
  datatype Result<+T, +E> = Ok(value: T) | Err(error: E)

  /** A `void` method that either returns or throws. */
  datatype Outcome<+E> = Pass | Fail(error: E)
}
