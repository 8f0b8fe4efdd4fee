/** Types that the components share. */
module Basics {
  type Byte = b: nat | b < 256

  datatype Option<T> = Some(value: T) | None
}
