/** A nullable column or an absent row. */
module Options {
  datatype Option<+T> = None | Some(value: T)
}
