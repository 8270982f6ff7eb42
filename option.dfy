module Optional {

  /** A value that may be absent: SQL NULL, Python's None. */
  datatype Option<T> = None | Some(value: T)
}
