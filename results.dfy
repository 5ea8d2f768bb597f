/** Failure-carrying values: the Go convention of returning `(value, error)` or a bare `error`. */
module Results {

  /** A value or an error (`(T, error)` in Go, with exactly one of the two meaningful). */
  datatype Result<+T, +E> = Success(value: T) | Failure(error: E)

  /** A decode that may find nothing. */
  datatype Option<+T> = None | Some(value: T)

  /** A bare `error` result: `nil` is `Pass`. */
  datatype Outcome<+E> = Pass | Fail(error: E)
}
