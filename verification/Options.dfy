/** The optional value used throughout the model for Go's nil pointers, absent map entries and error returns. */
module Options {
  datatype Option<+T> = None | Some(value: T)
}
