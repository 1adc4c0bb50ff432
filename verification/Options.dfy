/** Python's None beside a value; also an exception beside a result. */
module Options {
  datatype Option<+T> = None | Some(value: T)
}
