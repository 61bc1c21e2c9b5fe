/** A value that may be absent: a nil slice, a missing key, no result. */
module Options {
  datatype Option<+T> = None | Some(value: T)
}
