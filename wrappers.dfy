/** Optional values (JavaScript `undefined` / `null`) and outcomes of operations that throw. */
module Wrappers {

  datatype Option<+T> = None | Some(value: T)

  /** `Ok` is a normal return, `Err` the value the operation throws or rejects with. */
  datatype Result<+T, +E> = Ok(value: T) | Err(error: E)
}
