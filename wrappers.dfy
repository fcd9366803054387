/** PHP's nullable values (`?int`, `?Product`, ...). */
module Wrappers {
  datatype Option<+T> = None | Some(value: T)
}
