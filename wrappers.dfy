/** Optional values, for JavaScript's `undefined`/`null` results and for lookups that can miss. */
module Wrappers {
  datatype Option<T> = None | Some(value: T)
}
