/** Python's `None`-or-value, as used for optional paths and results. */
module Wrappers {

  datatype Option<+T> = None | Some(value: T)
}
