/** Optional values, used for the partial parsers and for searches that may find nothing. */
module Wrappers {
  datatype Option<+T> = None | Some(value: T)
}
