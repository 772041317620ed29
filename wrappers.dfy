/** Optional values, used where the source has `null`/`undefined` or a call that may throw. */
module Wrappers {
  datatype Option<+T> = None | Some(value: T)
}
