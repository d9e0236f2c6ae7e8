/** Option and Result, the failure-carrying values the rest of the model returns. */
module Wrappers {

  /** A value that may be absent: a JSON field that was not sent, a search that found nothing. */
  datatype Option<+T> = None | Some(value: T)

  /** Either a value or the reason the computation was abandoned (a rejected promise). */
  datatype Result<+T, +E> = Success(value: T) | Failure(error: E)
}
