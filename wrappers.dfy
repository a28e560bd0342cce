/** The absent-or-present value used wherever the source tests a property for truthiness. */
module Wrappers {
  datatype Option<+T> = None | Some(value: T)
}
