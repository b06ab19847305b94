/** Option and Result, used for Python's "returns a value or raises". */
module Wrappers {

  datatype Option<+T> = None | Some(value: T)

  /** `Success(v)` is a normal return of `v`; `Failure(e)` is an exception `e` being raised. */
  datatype Result<+R, +E> = Success(value: R) | Failure(error: E)
}
