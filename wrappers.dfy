/** Optional values, shared by the configuration and transform modules. */
module Wrappers {

  /** A value that may be absent: Python's `None` or a present object. */
  datatype Option<+T> = None | Some(value: T)
}
