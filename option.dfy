/** An optional value: a JavaScript `null` or `undefined` where the source has one. */
module Options {
  datatype Option<T> = None | Some(value: T)
}
