/** The optional value used wherever the source returns `Option` or panics. */
module Options {
  datatype Option<T> = None | Some(value: T)
}
