/**
 * Definitions shared by the modules: a C pointer that may be NULL (or a
 * value that may be absent), and the NUL that ends a C string.
 */
module Wrappers {

  datatype Option<T> = None | Some(value: T)

  /** The terminating '\0' of a C string. */
  const Nul: char := '\0'
}
