/** Optional values and typed failures, standing in for Java's `null`/`Optional`
    and for the exceptions the modelled code throws. */
module Wrappers {

  datatype Option<+T> = None | Some(value: T)

  datatype Result<+T, +E> = Success(value: T) | Failure(error: E)
}
