/** An optional value: the result of a lookup or of a conversion that may fail. */
module Optional {
  datatype Option<+T> = None | Some(value: T)
}
