/** Option and Result: the shapes of Rust's `Option<T>` and `Result<T, E>`. */
module Wrappers {

  datatype Option<+T> = None | Some(value: T)

  /** `Err` carries the error value unchanged, as Rust's `?` propagates it. */
  datatype Result<+T, +E> = Ok(value: T) | Err(error: E)
}
