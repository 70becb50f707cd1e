/** Option and Result, used for absent values and for the error paths of the modelled handlers. */
module Wrappers {

  datatype Option<T> = None | Some(value: T)

  datatype Result<T, E> = Success(value: T) | Failure(error: E)
}
