/** The optional value used for C's nullable pointers and failed lookups. */
module Options {

  /** `None` plays the part of a NULL pointer or a missing result. */
  datatype Option<+T> = None | Some(value: T)
}
