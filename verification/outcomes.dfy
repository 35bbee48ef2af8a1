/** Failure-carrying results used in place of the exceptions the Java code throws. */
module Outcomes {

  datatype Option<+T> = None | Some(value: T)

  /** A value, or the fault that a Java method would have thrown instead of returning it. */
  datatype Result<+R, +E> = Ok(value: R) | Err(error: E)

  /** Success or a fault, for Java methods that return `void`. */
  datatype Outcome<+E> = Pass | Fail(error: E)
}
