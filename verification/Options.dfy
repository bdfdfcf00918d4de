/** A value that may be missing: what the program says with a null pointer. */
module Options {
  datatype Option<T> = None | Some(value: T)
}
