/** Optional values: Python's `None` beside an ordinary value. */
module Wrappers {
  datatype Option<+T> = None | Some(value: T)
}
