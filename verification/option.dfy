/** An optional value: a NULL pointer, an unset timeout or a missing result. */
module Options {
  datatype Option<T> = None | Some(value: T)
}
