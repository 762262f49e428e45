/** Values that may be absent: SQL NULL, a Go nil pointer, a missing map entry. */
module Wrappers {
  datatype Option<+T> = None | Some(value: T)
}
