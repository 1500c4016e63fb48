/** A value that may be missing: the source's null pointers and "not found" answers. */
module Wrappers {
  datatype Option<+T> = None | Some(value: T)
}
