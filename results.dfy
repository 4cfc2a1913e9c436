/** Failure-carrying results used for the Python exceptions of the model. */
module Results {

  datatype Option<+T> = None | Some(value: T)

  /** A computation that either produced a value or raised `error`. */
  datatype Result<+T, +E> = Ok(value: T) | Err(error: E)

  /** A state-changing step that either completed or raised `error`. */
  datatype Outcome<+E> = Pass | Fail(error: E)
}
