/** A value that may be absent: a null pointer, a missing map entry, an operation that does not apply. */
module Options {
  datatype Option<T> = None | Some(value: T)
}
