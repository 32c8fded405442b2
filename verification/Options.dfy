/** A value that may be missing: C's null and -1 results. */
module Options {
  datatype Option<T> = None | Some(value: T)
}
