/** The optional value a JavaScript page expresses with `null` or `undefined`. */
module Options {
  datatype Option<T> = None | Some(value: T)
}
