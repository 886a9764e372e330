/** Success-or-failure values for the operations of the package that return an error. */
module Results {

  /** An optional value: what a Go function returns as (value, ok). */
  datatype Option<+T> = None | Some(value: T)

  /** A value or an error: what a Go function returns as (value, error). */
  datatype Result<+T, +E> = Success(value: T) | Failure(error: E)
}
