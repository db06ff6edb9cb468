/** The optional value used for "this pixel produces no fragment". */
module Wrappers {
  datatype Option<+T> = None | Some(value: T)
}
