/** The optional value shared by both puzzles' models. */
module Wrappers {
  datatype Option<T> = None | Some(value: T)
}
