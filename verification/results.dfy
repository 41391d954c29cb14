/** Failure-carrying wrappers shared by the model: `Option` for lookups that may find nothing,
    `Result` for calls that either return a value or raise, `Outcome` for calls that return
    nothing but may raise. */
module Results {

  datatype Option<+T> = None | Some(value: T)

  datatype Result<+R, +E> = Success(value: R) | Failure(error: E)

  datatype Outcome<+E> = Pass | Fail(error: E)
}
