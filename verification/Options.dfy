/** A value that may be missing: Python's `X | None`. */
module Options {

  datatype Option<+T> = None | Some(value: T)
}
