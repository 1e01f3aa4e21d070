/** The optional value that stands for JavaScript's `null` in the checker's state. */
module Wrappers {

  datatype Option<+T> = None | Some(value: T)
}
