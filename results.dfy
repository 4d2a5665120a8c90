/** Option and Result: the error paths of the modelled code (Python exceptions, Go `error` returns). */
module Results {
  datatype Option<T> = None | Some(value: T)

  datatype Result<T, E> = Ok(value: T) | Err(error: E)
}
