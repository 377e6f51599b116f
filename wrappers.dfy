/** Optional values and outcomes that may fail, for the places where the
    modelled code stores `None` or raises an exception. */
module Wrappers {

  datatype Option<T> = None | Some(value: T)

  datatype Result<T> = Success(value: T) | Failure(error: string)
}
