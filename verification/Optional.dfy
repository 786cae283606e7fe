/** A value that may be missing: SQL NULL, an absent row, or nothing found. */
module Optional {
  datatype Option<T> = None | Some(value: T)
}
