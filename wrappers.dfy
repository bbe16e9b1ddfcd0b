/** The optional value used by both checkers. */
module Wrappers {
  datatype Option<T> = None | Some(value: T)
}
