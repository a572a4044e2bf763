/** Optional values, used wherever the source has None or a swallowed exception. */
module Wrappers {

  datatype Option<+T> = None | Some(value: T)
}
