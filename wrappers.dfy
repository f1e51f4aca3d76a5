/** A value that may be missing: pandas' NaN result of a rolling window that is not yet full. */
module Wrappers {
  datatype Option<+T> = None | Some(value: T)
}
