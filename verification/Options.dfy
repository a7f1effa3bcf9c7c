/** A value or none, where the source returns NULL or -1. */
module Options {
  datatype Option<T> = None | Some(value: T)
}
