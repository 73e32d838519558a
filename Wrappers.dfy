/** Optional values: `None` plays the part of C#'s `null`. */
module Wrappers {
  datatype Option<T> = None | Some(value: T)
}
