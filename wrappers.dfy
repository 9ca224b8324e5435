/** Optional values and results with an error, used for every decoder's
    failure path in place of the source's integer status codes. */
module Wrappers {

  datatype Option<+T> = None | Some(value: T)

  datatype Result<+R, +E> = Ok(value: R) | Err(error: E)
}
