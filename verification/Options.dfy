/** A result that may be absent. */
module Options {
  datatype Option<+A> = None | Some(value: A)
}
