/** Optional values and results with an error, used for absent cells, missing
    elements and the converters' exceptions. */
module Wrappers {

  datatype Option<+T> = None | Some(value: T)

  datatype Result<+R, +E> = Success(value: R) | Failure(error: E)
}
