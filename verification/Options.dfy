/** An optional value, for the null pointers and absent results of the source. */
module Options {
  datatype Option<+T> = None | Some(value: T)
}
