/** Failure-carrying results shared by every module of the model. */
module Results {

  /** An optional value. */
  datatype Option<+T> = None | Some(value: T)

  /** The outcome of an operation that either returns a value or raises an error. */
  datatype Result<+T, +E> = Ok(value: T) | Err(error: E)
}
