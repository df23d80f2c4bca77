/** The usual optional value: JavaScript's `undefined` results (no item found, no form stored). */
module Options {
  datatype Option<+T> = None | Some(value: T)
}
