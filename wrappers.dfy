/** Python's `None`-or-value, used wherever the modelled code can return `None`. */
module Wrappers {

  datatype Option<+T> = None | Some(value: T)
}
