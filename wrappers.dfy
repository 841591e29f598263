/** Optional values, for Python's `None` (an unset idle action, a missing argument, a name not found). */
module Wrappers {

  datatype Option<+T> = None | Some(value: T)
}
