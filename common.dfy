/** Failure-carrying result types shared by the grammar engine. */
module Common {

  datatype Option<T> = None | Some(value: T)

  /** An operation that either produced a value or raised an error. */
  datatype Result<T, E> = Ok(value: T) | Err(error: E)

  function Max(a: int, b: int): int
  {
    if a < b then b else a
  }
}
