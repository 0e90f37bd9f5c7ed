/** Failure-carrying results, standing for Go's `(value, error)` and `error` returns. */
module Wrappers {

  datatype Option<+T> = None | Some(value: T)

  /** A value, or the error message Go would have returned beside its zero value. */
  datatype Result<+T> = Ok(value: T) | Err(error: string) {
    /** The value, or Go's zero value when there is none (as in `v, _ := f()`). */
    function GetOr(zero: T): T {
      match this
      case Ok(v) => v
      case Err(_) => zero
    }
  }

  /** The result of a Go function that returns only an `error`. */
  datatype Outcome = Pass | Fail(error: string)
}
