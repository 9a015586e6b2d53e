/** The optional value the sources express with null, None or an early return. */
module Wrappers {
  datatype Option<T> = None | Some(value: T)
}
