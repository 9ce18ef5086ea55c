/** Failure-carrying values shared by the three generators. */
module Wrappers {

  /** An optional value; `None` also stands for pandas' NaN cells and for Python's `None`. */
  datatype Option<+T> = None | Some(value: T)

  /** A computation that either produced a value or raised (the error says what raised). */
  datatype Result<+T, +E> = Ok(value: T) | Err(error: E)
}
