/** Results that may be missing: a lookup that finds nothing, or a call that panics. */
module Wrappers {
  datatype Option<+T> = None | Some(value: T)
}
