/** Optional values, standing for the nullable pointers and "found / not
    found" returns of the C and C++ sources. */
module Wrappers {

  datatype Option<+T> = None | Some(value: T)

  datatype Result<+T, +E> = Ok(value: T) | Err(error: E)
}
