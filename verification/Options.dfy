/** A value that may be missing: a null pointer, an absent table slot, a state that cannot be reached. */
module Options {
  datatype Option<+T> = None | Some(value: T)
}
