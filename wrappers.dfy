/** Optional values and results with an error, used by both tiers of the model. */
module Wrappers {

  /** A value that may be absent: `null`/`undefined` in the client, `None` in the server. */
  datatype Option<+T> = None | Some(value: T)

  /** The outcome of a call that may raise: its value, or the message of the exception. */
  datatype Result<+T, +E> = Success(value: T) | Failure(error: E)
}
