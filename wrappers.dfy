/** Option and Result, the two failure-carrying shapes used across the model. */
module Wrappers {

  /** A value that may be missing: JavaScript's `null`/`undefined`, a failed `find`, NaN from a parse. */
  datatype Option<+T> = None | Some(value: T)

  /** The outcome of a thunk: fulfilled with a value, or rejected with the payload given to `rejectWithValue`. */
  datatype Result<+R, +E> = Success(value: R) | Failure(error: E)
}
