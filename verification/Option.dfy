/** A value that may be missing. */
module Option {
  datatype Option<+T> = None | Some(value: T)
}
