/** The optional value used wherever the Go code returns a nil pointer. */
module Optional {
  datatype Option<+T> = None | Some(value: T)
}
