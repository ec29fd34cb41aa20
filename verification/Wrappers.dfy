/** The one result shape that several components share. */
module Wrappers {
  datatype Option<+T> = None | Some(value: T)
}
