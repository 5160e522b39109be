/** Python's `None`-or-value, used wherever the source tests `is None`. */
module Wrappers {

  datatype Option<+T> = None | Some(value: T)
}
