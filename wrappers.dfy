/** Option, Result and Outcome: Java's null returns and thrown exceptions as values. */
module Wrappers {

  /** `None` stands for Java's `null`. */
  datatype Option<+T> = None | Some(value: T)

  /** A value, or the exception a Java method would have thrown instead. */
  datatype Result<+T, +E> = Success(value: T) | Failure(error: E)

  /** A void Java method: it either returns normally or throws. */
  datatype Outcome<+E> = Pass | Fail(error: E)
}
