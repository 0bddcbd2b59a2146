/** Small failure-carrying wrappers shared by the store and the engine. */
module Types {

  /** A value that may be absent (Go's nil). */
  datatype Option<T> = None | Some(value: T)

  /** The outcome of a call that either yields a value or reports an error. */
  datatype Result<T, E> = Ok(value: T) | Err(error: E)
}
