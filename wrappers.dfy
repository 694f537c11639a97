/** Optional values and call outcomes shared by the validators. */
module Wrappers {

  /** A value that may be absent; `None` also stands for a Java `null` reference. */
  datatype Option<+T> = None | Some(value: T)

  /** The outcome of a Java call that either returns normally or throws. */
  datatype Result<+T, +E> = Ok(value: T) | Err(error: E)
}
