/** Optional values and error results, standing in for Java's nullable
    references and thrown exceptions. */
module Outcomes {

  /** A Java reference that may be null: `None` is null. */
  datatype Option<+T> = None | Some(value: T)

  /** A call that either returns normally or throws. */
  datatype Result<+T, +E> = Ok(value: T) | Err(error: E)
}
