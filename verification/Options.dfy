/** The optional value used by all components. */
module Options {
  datatype Option<+T> = None | Some(value: T)
}
