/** The optional value that stands for JavaScript's null / undefined. */
module Wrappers {
  datatype Option<+T> = None | Some(value: T)
}
