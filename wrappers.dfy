/** Optional values: Go's nil pointer versus a present value. */
module Wrappers {

  datatype Option<+T> = None | Some(value: T)
}
