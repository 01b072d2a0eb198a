/** Optional values, for the nullable and throwing results of the modelled code. */
module Wrappers {
  datatype Option<+T> = None | Some(value: T)
}
