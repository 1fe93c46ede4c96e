/** A value that may be missing: a failed allocation, a NULL result. */
module Options {
  datatype Option<T> = None | Some(value: T)
}
