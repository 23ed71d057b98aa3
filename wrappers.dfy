/** Optional values: a C# `null` result or a JSON `null` value. */
module Wrappers {

  datatype Option<+T> = None | Some(value: T)
}
