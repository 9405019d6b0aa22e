/** The optional value used throughout the project for null pointers and absent results. */
module Wrappers {
  datatype Option<+T> = None | Some(value: T)
}
