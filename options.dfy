/** The usual optional value, for the source's dictionary lookups that may raise `KeyError`. */
module Options {
  datatype Option<+T> = None | Some(value: T)
}
