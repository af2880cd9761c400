/** Optional values, for lookups and decodes that may find nothing. */
module Wrappers {

  datatype Option<T> = None | Some(value: T)
}
