/** The failure-carrying wrappers the model shares: Rust's `Option` and `Result`. */
module Results {

  /** An optional value. */
  datatype Option<+T> = None | Some(value: T)

  /** A value, or the error that replaced it. */
  datatype Result<+T, +E> = Ok(value: T) | Err(error: E)
}
