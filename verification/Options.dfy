/** The usual optional value, for results the source leaves out or reports as None. */
module Options {
  datatype Option<+T> = None | Some(value: T)
}
