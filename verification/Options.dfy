/** An optional value, for fields and results that the code leaves at `None`. */
module Options {
  datatype Option<+T> = None | Some(value: T)
}
