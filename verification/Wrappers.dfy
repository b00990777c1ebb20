/** A value that may be missing: a pointer or a string that may be NULL. */
module Wrappers {

  datatype Option<+T> = None | Some(value: T)
}
