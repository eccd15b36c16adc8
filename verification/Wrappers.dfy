/** The optional value used wherever the relay returns a value with an `ok` flag or an error that may be nil. */
module Wrappers {
  datatype Option<+T> = None | Some(value: T)
}
