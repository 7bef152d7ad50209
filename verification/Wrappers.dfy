/** Optional values and the outcome of operations that the program may refuse. */
module Wrappers {

  datatype Option<+T> = None | Some(value: T)

  datatype Result<+T> = Ok(value: T) | Refused
}
