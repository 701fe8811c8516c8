/** The result of an operation that can fail, as Rust's `Result<T, E>`. */
module Wrappers {
  datatype Result<+T, +E> = Ok(value: T) | Err(error: E)
}
