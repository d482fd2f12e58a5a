module Wrappers {
  /** A value that may be absent, as a failed call or a missing key. */
  datatype Option<+T> = None | Some(value: T)
}
