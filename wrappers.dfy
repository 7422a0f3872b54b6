/** Option type shared by every component (None stands for Python's None,
    a C++ `false` return, or a C# null). */
module Wrappers {
  datatype Option<+T> = None | Some(value: T)
}
