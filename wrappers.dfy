/** Optional values, standing for Python's `None` results. */
module Wrappers {

  datatype Option<+T> = None | Some(value: T)
}
