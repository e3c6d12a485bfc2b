module Options {
  /** An absent or present value, in place of a null pointer or a sentinel. */
  datatype Option<+T> = None | Some(value: T)
}
