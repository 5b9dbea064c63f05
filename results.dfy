/** Option and Result, for the values the Go code returns as (value, error) pairs or nil. */
module Results {

  datatype Option<+T> = None | Some(value: T)

  datatype Result<+T, +E> = Success(value: T) | Failure(error: E)
}
