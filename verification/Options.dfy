/** A value that may be missing, and the white space of the C locale. */
module Options {
  datatype Option<T> = None | Some(value: T)

  predicate IsSpace(c: char) { c == ' ' || '\t' <= c <= '\r' }
}
