/** Option, used for the nullable references of the C# model (`string?`). */
module Wrappers {
  datatype Option<+T> = None | Some(value: T)
}
