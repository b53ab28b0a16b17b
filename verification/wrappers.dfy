/** Optional values, used for Python's `None` and for skipped steps. */
module Wrappers {

  datatype Option<+T> = None | Some(value: T)
}
