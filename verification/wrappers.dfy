/** Optional values: the source's nullable strings and missing dictionary entries. */
module Wrappers {
  datatype Option<+T> = None | Some(value: T)
}
