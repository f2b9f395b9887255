/** An optional value: a missing feature, a skipped snapshot, absent data. */
module Wrappers {
  datatype Option<+T> = None | Some(value: T)
}
