/** Option and Result: the optional values (`T?`) and the throwing functions of the macro, as values. */
module Wrappers {

  datatype Option<+T> = None | Some(value: T)

  /** `Ok(value)` is a normal return; `Err(error)` stands for a Swift `throw`. */
  datatype Result<+T, +E> = Ok(value: T) | Err(error: E)
}
