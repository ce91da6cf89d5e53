/** Optional values and results with an error, standing in for Python's
    `None` and for exceptions that a caller either sees or swallows. */
module Maybe {

  /** A value that may be absent (Python's `None`). */
  datatype Option<+T> = None | Some(value: T)

  /** The outcome of an operation that may raise. */
  datatype Result<+T, +E> = Success(value: T) | Failure(error: E)
}
