/** A value that may be missing: the source's nil pointers, absent rows and "not found" results. */
module Optional {
  datatype Option<+T> = None | Some(value: T)
}
