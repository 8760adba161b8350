/** The optional-value and result datatypes shared by the routing modules. */
module Wrappers {

  /** A value that may be absent; `None` plays the part of Java's `null`. */
  datatype Option<+T> = None | Some(value: T)

  /** A value or the reason the computation failed. */
  datatype Result<+R, +E> = Ok(value: R) | Err(error: E)
}
