/** Option and Result, the failure-carrying datatypes the rest of the model returns
    in place of JavaScript's `undefined` and thrown strings. */
module Wrappers {

  datatype Option<+T> = None | Some(value: T)

  datatype Result<+T, +E> = Ok(value: T) | Err(error: E)
}
