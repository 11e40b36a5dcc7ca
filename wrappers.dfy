/** Optional values, for the `?.` lookups and `undefined`/`None` results of the source. */
module Wrappers {
  datatype Option<+T> = None | Some(value: T)
}
