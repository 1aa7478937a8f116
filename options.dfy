/** The optional value the model uses wherever the source has `null`. */
module Options {
  datatype Option<+T> = None | Some(value: T)
}
