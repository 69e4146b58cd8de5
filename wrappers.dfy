/** A value that may be absent, standing for a C pointer that may be null. */
module Wrappers {
  datatype Option<T> = None | Some(value: T)
}
