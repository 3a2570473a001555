/** The optional value used wherever the modelled code returns or stores null. */
module Options {
  datatype Option<+T> = None | Some(value: T)
}
