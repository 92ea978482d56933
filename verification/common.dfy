/** Datatypes every component shares. */
module Common {
  datatype Option<+T> = None | Some(value: T)
}
