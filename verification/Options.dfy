module Options {
  /** A value that may be absent: a null reference, or nothing found. */
  datatype Option<+T> = None | Some(value: T)
}
