/** Optional values, used where the modelled code has None, null or an exception. */
module Wrappers {
  datatype Option<+T> = None | Some(value: T)
}
