/** A value that may be missing: a pointer that may be NULL, an operation that may fail. */
module Options {

  datatype Option<+T> = None | Some(value: T)
}
