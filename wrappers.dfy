/** The optional value used for Python's `None`-or-value selections and results. */
module Wrappers {
  datatype Option<+T> = None | Some(value: T)
}
