/** Absent values: the `null` and `undefined` of the original. */
module Options {
  datatype Option<+T> = None | Some(value: T)
}
