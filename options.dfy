/** An optional value, for results that may be absent (no hit, no parent). */
module Options {
  datatype Option<T> = None | Some(value: T)
}
