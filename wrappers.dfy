/** Optional values: Python's `None` and SQL NULL become `None`. */
module Wrappers {

  datatype Option<+T> = None | Some(value: T)
}
