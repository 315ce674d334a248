/** Optional values, standing in for Go's nil-able results (a nil `error`, a nil pointer). */
module Wrappers {

  datatype Option<+T> = None | Some(value: T)
}
