/** An optional value: a C pointer or index that may be null. */
module Options {
  datatype Option<+T> = None | Some(value: T)
}
