/** Python's `None`-or-value, used for the fixed letter of a position. */
module Wrappers {
  datatype Option<+T> = None | Some(value: T)
}
