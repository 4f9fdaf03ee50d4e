/** The conventional optional value, for the source's nil pointers and error values. */
module Options {
  datatype Option<+T> = None | Some(value: T)
}
