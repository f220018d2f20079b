/** Optional values and results with an error, for the operations of the
    point-of-sale ledger that can fail or find nothing. */
module Wrappers {

  datatype Option<+T> = None | Some(value: T)

  datatype Result<+T, +E> = Success(value: T) | Failure(error: E)
}
