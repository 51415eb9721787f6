/** Python's `None`-or-value, used for the optional node links and results. */
module Wrappers {
  datatype Option<+T> = None | Some(value: T)
}
