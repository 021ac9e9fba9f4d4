module Options {
  /** A value that may be missing. */
  datatype Option<+T> = None | Some(value: T)
}
