/** Optional values: a parse that fails, an input stream that runs out. */
module Wrappers {
  datatype Option<+T> = None | Some(value: T)
}
