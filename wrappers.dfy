/** Optional values, for reads that can fail and lookups that can miss. */
module Wrappers {
  datatype Option<T> = None | Some(value: T)
}
