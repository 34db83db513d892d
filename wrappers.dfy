/** The optional value used wherever the source tests for `undefined`. */
module Wrappers {

  datatype Option<+T> = None | Some(value: T)
}
