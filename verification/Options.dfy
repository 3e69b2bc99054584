/** Results that may be absent, for Go's nil errors and Python's None. */
module Options {
  datatype Option<+T> = None | Some(value: T)
}
