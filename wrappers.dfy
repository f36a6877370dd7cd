/** Optional values and results with an error, for operations whose
    failures the model returns instead of aborting. */
module Wrappers {

  datatype Option<+T> = None | Some(value: T)

  datatype Result<+T, +E> = Ok(value: T) | Err(error: E)
}
