/** Optional values and results with an error, as the Go code expresses them with a nil
    check or with a second `error` return value. */
module Wrappers {

  datatype Option<+T> = None | Some(value: T)

  datatype Result<+R, +E> = Success(value: R) | Failure(error: E)
}
