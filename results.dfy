/** Optional values and the error path of an operation that raises. */
module Results {

  /** Python's Optional[T]: None or a value. */
  datatype Option<T> = None | Some(value: T)

  /** The value an operation returns, or the exception it raises. */
  datatype Result<T, E> = Ok(value: T) | Err(error: E)
}
