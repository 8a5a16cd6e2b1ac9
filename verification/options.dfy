/** The conventional optional value, used for remote calls that may fail. */
module Options {
  datatype Option<+T> = None | Some(value: T)
}
