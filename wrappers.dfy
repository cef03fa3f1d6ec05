/** Optional values: `Option<String>` in the source. */
module Wrappers {

  datatype Option<+T> = None | Some(value: T)
}
