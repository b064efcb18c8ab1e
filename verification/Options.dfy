// A value that may be missing; also the result of an operation that may panic.
module Options {
  datatype Option<+T> = None | Some(value: T)
}
