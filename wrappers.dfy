/** Optional values: an absent request field, a missed lookup. */
module Wrappers {
  datatype Option<+T> = None | Some(value: T)
}
