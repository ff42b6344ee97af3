/** Small shared datatypes: optional values and fallible results. */
module Prelude {
  datatype Option<+T> = None | Some(value: T)

  /** Outcome of an operation that either yields a value or reports an error. */
  datatype Result<+T, +E> = Ok(value: T) | Err(error: E)
}
