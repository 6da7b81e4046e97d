/** Optional values, used wherever the source has `None` or raises and stops. */
module Wrappers {
  datatype Option<+T> = None | Some(value: T)
}
