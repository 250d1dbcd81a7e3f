/** Failure-carrying wrappers used across the model: a missing value and an
    operation that either yields a value or raises with a message. */
module Results {

  datatype Option<+T> = None | Some(value: T)

  /** The outcome of a Python call that either returns or raises; the
      failure carries the exception's message text. */
  datatype Result<+T> = Success(value: T) | Failure(error: string)
}
