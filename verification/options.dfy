/** The optional value used where the model records "at most one" of something. */
module Options {

  datatype Option<+T> = None | Some(value: T)
}
