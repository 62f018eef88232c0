/** Option and Result, the two failure-carrying shapes every handler of the model returns. */
module Wrappers {

  datatype Option<+T> = None | Some(value: T)

  /** `Ok` carries the new value; `Err` the reason the request was refused. */
  datatype Result<+T, +E> = Ok(value: T) | Err(error: E)
}
