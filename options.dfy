/** The usual Some/None datatype, standing for a JavaScript value that may be
    `null` or `undefined`. */
module Options {
  datatype Option<+T> = None | Some(value: T)
}
