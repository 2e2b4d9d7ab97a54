/** Value wrappers shared by every module of the model. */
module Common {

  /** Python's `Optional[T]`: `None` or a present value. */
  datatype Option<+T> = None | Some(value: T)

  /** The outcome of an operation that either produces a value or fails with an error. */
  datatype Result<+T, +E> = Ok(value: T) | Err(error: E)

  /** The two built-in exception classes the backend raises; `message` is what `str(e)` gives. */
  datatype Exception = ValueError(message: string) | RuntimeError(message: string)
}
