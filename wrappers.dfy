/** Optional values and results that carry an error, standing for Python's
    `None` and for the exceptions the game code raises. */
module Wrappers {

  datatype Option<T> = None | Some(value: T)

  datatype Result<T, E> = Ok(value: T) | Err(error: E)
}
