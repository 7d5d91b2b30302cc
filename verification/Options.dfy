/** The optional value used for nullable pointers and unowned locks. */
module Options {
  datatype Option<+T> = None | Some(value: T)
}
