/** Failure-carrying wrappers shared by the other modules. */
module Common {

  /** A value that may be absent (the Java code's `null`). */
  datatype Option<T> = None | Some(value: T)

  /** A computed value, or the exception that computing it raised. */
  datatype Result<T, E> = Ok(value: T) | Err(error: E)
}
