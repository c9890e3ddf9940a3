/** A value that may be absent: stands for JavaScript's `undefined` results. */
module Options {
  datatype Option<T> = None | Some(value: T)
}
