/** The optional value used wherever the source relies on a null reference. */
module Wrappers {
  datatype Option<+T> = None | Some(value: T)
}
