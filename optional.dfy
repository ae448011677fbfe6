/** A value that may be missing: an empty input field, a number that may be absent. */
module Optional {
  datatype Option<T> = None | Some(value: T)
}
