/** A value that may be absent: a column that may be null, a lookup that may find nothing. */
module Options {
  datatype Option<+T> = None | Some(value: T)
}
