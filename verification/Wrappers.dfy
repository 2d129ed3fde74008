/** A value that may be missing: the source's null pointers, and calls that do not return. */
module Wrappers {
  datatype Option<+T> = None | Some(value: T)
}
