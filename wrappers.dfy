/** Option and Result, the shapes of Rust's `Option` and of a parse that either
    produces a value or aborts. */
module Wrappers {
  datatype Option<+T> = None | Some(value: T)

  datatype Result<+T, +E> = Ok(value: T) | Err(error: E)
}
