/** Option and Result wrappers shared by every module of the model. */
module Base {
  /** A value that may be absent (a JavaScript `undefined`/`null`, or a lookup that found nothing). */
  datatype Option<+T> = None | Some(value: T)

  /** The outcome of an operation that can fail with an error of type E. */
  datatype Result<+T, +E> = Ok(value: T) | Err(error: E)
}
