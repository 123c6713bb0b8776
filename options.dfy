/** An optional value: the model's stand-in for the source's optionals. */
module Options {
  datatype Option<+T> = None | Some(value: T)
}
