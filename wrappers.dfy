/** The optional value used for "no match" and "no parent". */
module Wrappers {
  datatype Option<+T> = None | Some(value: T)
}
