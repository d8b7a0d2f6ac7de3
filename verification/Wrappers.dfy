// Optional values, used for Go's nil pointers and for "value or error" returns.
module Wrappers {

  datatype Option<+T> = None | Some(value: T)
}
