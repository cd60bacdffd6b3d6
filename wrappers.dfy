/** Optional values, used for the source's null pointers. */
module Wrappers {
  datatype Option<+T> = None | Some(value: T)
}
