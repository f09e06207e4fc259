/** An optional value: a nullable pointer, a missing table entry. */
module Options {
  datatype Option<+T> = None | Some(value: T)
}
