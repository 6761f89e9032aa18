/** The optional-value and result wrappers shared by the hotel model. */
module Wrappers {

  /** A value that may be absent: an omitted request field, a missing query parameter. */
  datatype Option<+T> = None | Some(value: T)

  /** The outcome of a request handler: a value, or the error the handler reports. */
  datatype Result<+T, +E> = Success(value: T) | Failure(error: E)
}
