/** A value that may be missing: the source's NULL. */
module Options {
  datatype Option<+T> = None | Some(value: T)
}
