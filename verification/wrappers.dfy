/** Optional values: the model of a Go `*string` that may be nil. */
module Wrappers {

  datatype Option<+T> = None | Some(value: T)
}
