/** Option and Result, used for values the source may not have (an undecodable
    file, a missing project base path) and for requests it refuses. */
module Wrappers {

  datatype Option<+T> = None | Some(value: T)

  datatype Result<+R, +E> = Success(value: R) | Failure(error: E)
}
