/** The optional value used where the source returns None or raises for a missing result. */
module Wrappers {

  datatype Option<T> = None | Some(value: T)
}
