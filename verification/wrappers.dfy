/** Failure-compatible wrappers shared by the model: an optional value (a map
    lookup that may miss) and a result that is either a value or an error. */
module Wrappers {

  datatype Option<+T> = None | Some(value: T)

  datatype Result<+R, +E> = Success(value: R) | Failure(error: E)
}
