/** Failure-carrying return types shared by the conversion modules. */
module Wrappers {

  /** A value that may be absent: the converter's unpacking steps yield `None`
      where the script raises on a malformed record. */
  datatype Option<+T> = None | Some(value: T)

  /** Either a computed value or the reason the run stopped. */
  datatype Result<+T, +E> = Ok(value: T) | Err(error: E)
}
