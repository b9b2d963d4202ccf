/** A value that may be absent: Go's nil pointers, missing rows and second results. */
module Options {
  datatype Option<T> = None | Some(value: T)
}
