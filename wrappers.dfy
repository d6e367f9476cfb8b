/** Optional values and results shared by the modules of this project. */
module Wrappers {

  datatype Option<+T> = None | Some(value: T)

  /** The outcome of an operation that either produces a value or aborts with an error. */
  datatype Result<+R, +E> = Success(value: R) | Failure(error: E)

  /** The outcome of an operation that only changes state or aborts with an error. */
  datatype Outcome<+E> = Pass | Fail(error: E)
}
