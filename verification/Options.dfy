/** A value or its absence: the source's null pointers and "no record" answers. */
module Options {
  datatype Option<T> = None | Some(value: T)
}
