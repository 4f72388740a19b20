/** `undefined` as a value: the optional results of the extension's helpers. */
module Wrappers {
  datatype Option<T> = None | Some(value: T)
}
