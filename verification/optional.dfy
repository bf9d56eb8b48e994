/** A value that may be absent: a missing element, or a missing URL parameter. */
module Optional {
  datatype Option<+T> = None | Some(value: T)
}
