module Wrappers {

  /** A value, or the NULL that the source uses for its absence. */
  datatype Option<+T> = None | Some(value: T)
}
