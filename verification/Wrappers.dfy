/** A value that may be missing: Ruby's and Go's nil. */
module Wrappers {
  datatype Option<+T> = None | Some(value: T)
}
