/** A value that may be missing, or a step that may fail. */
module Options {

  datatype Option<+T> = None | Some(value: T)
}
