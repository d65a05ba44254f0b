/** An optional value: a key that may or may not be waiting, an enemy that may or may not be hit. */
module Options {
  datatype Option<T> = None | Some(value: T)
}
