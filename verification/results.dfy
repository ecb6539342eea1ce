/** Failure-carrying values used by the pipeline. */
module Results {

  /** A value that may be absent (an `undefined` argument on the page). */
  datatype Option<+T> = None | Some(value: T)

  /** The outcome of a pipeline stage that can fail. */
  datatype Result<+T, +E> = Success(value: T) | Failure(error: E)
}
