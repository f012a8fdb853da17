/** Optional values and error-carrying results, used wherever the C++ code
    returns a null pointer, a -1 sentinel or a status message. */
module Wrappers {

  datatype Option<+T> = None | Some(value: T)

  datatype Result<+T, +E> = Success(value: T) | Failure(error: E)
}
