/** The optional value used where the C code has a nullable pointer. */
module Wrappers {
  datatype Option<T> = None | Some(value: T)
}
