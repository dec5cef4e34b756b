/** Optional values: a missing metadata title, a group of spans that yields no line. */
module Wrappers {
  datatype Option<+T> = None | Some(value: T)
}
