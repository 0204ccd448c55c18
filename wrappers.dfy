/** The optional value used wherever the source stores `null` for "none". */
module Wrappers {
  datatype Option<+T> = None | Some(value: T)
}
