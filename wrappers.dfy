/** The optional value that stands in for a C pointer which may be NULL. */
module Wrappers {
  datatype Option<+T> = None | Some(value: T)
}
