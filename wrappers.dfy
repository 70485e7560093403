/** A value that may be missing, shared by the modules that return one. */
module Wrappers {
  datatype Option<T> = None | Some(value: T)
}
