module Wrappers {
  /** A value that may be missing: the null results of the modelled code. */
  datatype Option<+T> = None | Some(value: T)
}
