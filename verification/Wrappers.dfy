/** Nullable values and fallible results, shared by the other modules. */
module Wrappers {

  /** A C pointer or Python value that may be absent. */
  datatype Option<+T> = None | Some(value: T)

  /** The outcome of an operation that may report an error instead of a value. */
  datatype Result<+T, +E> = Ok(value: T) | Err(error: E)
}
