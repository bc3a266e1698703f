/** Values shared by every part of the model: optional (nullable) values, the
    three exception kinds the services throw, and a result type that carries
    either a value or one of those failures. */
module Common {

  /** A Java reference that may be null. */
  datatype Option<+T> = None | Some(value: T)

  /** The exceptions the core throws. NotFound, BadRequest and Conflict are the
      application's own exception classes; NullPointer stands for the
      NullPointerException that unboxing or dereferencing a null raises. */
  datatype Error = NotFound | BadRequest | Conflict | NullPointer

  /** The outcome of an operation that either returns a value or throws. */
  datatype Result<+T> = Ok(value: T) | Err(error: Error)

  /** A validation step that either passes or throws. */
  datatype Check = Pass | Fail(error: Error)
}
