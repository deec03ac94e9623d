/** The optional value used for the fields that the source leaves as None. */
module Wrappers {
  datatype Option<+T> = None | Some(value: T)
}
