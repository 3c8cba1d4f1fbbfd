/** Optional values and results of store operations that can fail. */
module Wrappers {

  datatype Option<T> = None | Some(value: T)

  /** The result of an operation that yields a value or fails with an error. */
  datatype Result<T, E> = Ok(value: T) | Err(error: E)

  /** The result of an operation that yields nothing or fails with an error. */
  datatype Outcome<E> = Pass | Fail(error: E)
}
