/** The two outcome shapes the model uses in place of Python's `None` and exceptions. */
module Results {

  datatype Option<T> = None | Some(value: T)

  /** A computation that returned `value` or raised `error`. */
  datatype Result<T, E> = Ok(value: T) | Err(error: E)
}
