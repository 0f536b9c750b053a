/** The conventional optional value, used where the C code returns a null pointer. */
module Options {
  datatype Option<+T> = None | Some(value: T)
}
