/** Optional values and results, the two shapes the client's nullable values and exceptions take. */
module Wrappers {

  datatype Option<+T> = None | Some(value: T)

  datatype Result<+R, +E> = Ok(value: R) | Err(error: E)
}
