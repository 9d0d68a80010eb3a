/** What several modules speak of */
module Basics {
  datatype Option<T> = None | Some(value: T)

  type byte = x: int | 0 <= x < 256
}
