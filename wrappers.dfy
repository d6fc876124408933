/** An optional argument: `None` stands for a JavaScript argument that was
    left out (`undefined`) or passed as `null`. */
module Wrappers {
  datatype Option<+T> = None | Some(value: T)
}
