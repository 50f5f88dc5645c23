/** Option and Result, used for Python's NaN results and for the exceptions
    the modelled code raises. */
module Wrappers {

  /** `None` stands for a NaN that the source returns instead of a number. */
  datatype Option<+T> = None | Some(value: T)

  /** `Err` stands for an exception the source raises. */
  datatype Result<+T, +E> = Ok(value: T) | Err(error: E)
}
