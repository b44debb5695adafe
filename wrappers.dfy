/** An optional value: the model's stand-in for a C# `null` reference or a failed parse. */
module Wrappers {
  datatype Option<+T> = None | Some(value: T)
}
