/** Optional values and results with an error, used where the program
    either has nothing to return or raises an exception. */
module Outcomes {

  datatype Option<+T> = None | Some(value: T)

  datatype Result<+T, +E> = Ok(value: T) | Err(error: E)
}
