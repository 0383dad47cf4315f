/** Optional values: an absent request field, a user that `find` did not find. */
module Wrappers {
  datatype Option<+T> = None | Some(value: T)
}
