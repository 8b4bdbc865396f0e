/** Failure values of the engine. The Java engine signals these by throwing; here an
    operation returns them. */
module Outcomes {

  /** The Java exception a failing operation throws. */
  datatype Error = IllegalArgument | IndexOutOfBounds | NullPointer

  /** Result of an operation that returns nothing on success (a Java `void` method). */
  datatype Outcome = Pass | Fail(error: Error)

  /** Result of an operation that returns a value on success. */
  datatype Result<+T> = Ok(value: T) | Err(error: Error)

  datatype Option<+T> = None | Some(value: T)
}
