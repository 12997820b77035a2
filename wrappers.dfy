/** Option and Result, used for the optional progress file, the optional
    lookup tab and the start-up failure on an empty word list. */
module Wrappers {

  datatype Option<T> = None | Some(value: T)

  datatype Result<T, E> = Success(value: T) | Failure(error: E)
}
