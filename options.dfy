/** An optional value: the Java code's `null` for "no node", "no board" or "no colour". */
module Options {
  datatype Option<T> = None | Some(value: T)
}
