/** Optional values and success-or-error results. */
module Results {

  datatype Option<+T> = None | Some(value: T)

  /** A call that either completes with a value or raises an error carrying a message. */
  datatype Result<+R, +E> = Success(value: R) | Failure(error: E)
}
