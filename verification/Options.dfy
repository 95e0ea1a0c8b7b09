/** A value that may be missing: the sources' null pointers and error returns. */
module Options {
  datatype Option<+T> = None | Some(value: T)
}
