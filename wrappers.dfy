/** An optional value, used where the source either produces a result or fails. */
module Wrappers {
  datatype Option<+T> = None | Some(value: T)
}
