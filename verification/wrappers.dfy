/** Optional values and outcomes that may fail, shared by every module. */
module Wrappers {

  /** A value that may be absent (Python's `None`). */
  datatype Option<+T> = None | Some(value: T)

  /** The outcome of a Python call that may raise instead of returning. */
  datatype Result<+T> = Ok(value: T) | Raises
}
