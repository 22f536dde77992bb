/** A value that may be absent: the model's stand-in for a C pointer that may be NULL. */
module Options {

  datatype Option<+T> = None | Some(value: T)

}
