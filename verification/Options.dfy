/** An optional value, for the JavaScript `null` the panels use for "no record". */
module Options {
  datatype Option<T> = None | Some(value: T)
}
