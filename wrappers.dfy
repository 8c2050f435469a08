/** Optional values and results with an error, used by every pipeline of the model. */
module Wrappers {

  /** A value that may be absent (Python's `None`). */
  datatype Option<+T> = None | Some(value: T)

  /** Either a value or the exception the Python code would raise. */
  datatype Result<+T, +E> = Ok(value: T) | Err(error: E)

  /** Calendar dates as day numbers; the model never needs the civil calendar. */
  type Date = int
}
