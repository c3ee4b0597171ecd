/** A value that may be missing: a nil reference, an absent field, or a failed lookup. */
module Options {
  datatype Option<+T> = None | Some(value: T)
}
