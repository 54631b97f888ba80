/** Optional values, used throughout the model. */
module Wrappers {

  /** A value that may be absent (`undefined`, `null`, no match). */
  datatype Option<+T> = None | Some(value: T)
}
