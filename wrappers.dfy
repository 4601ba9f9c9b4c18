/** Optional values and results that may fail, standing for JavaScript's
    `undefined` results and thrown errors. */
module Wrappers {

  datatype Option<+T> = None | Some(value: T)

  /** `Failure(message)` models `throw new Error(message)`. */
  datatype Result<+T, +E> = Success(value: T) | Failure(error: E)
}
