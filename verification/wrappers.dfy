/** Optional values: a missing store entry, a cancelled prompt, an unregistered video. */
module Wrappers {

  datatype Option<+T> = None | Some(value: T)
}
