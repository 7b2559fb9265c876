/** Types shared by the whole model: Go's `byte`, a value-or-error result
    (Go's `(T, error)` return pairs) and a nilable reference. */
module Prelude {

  /** Go's `byte` (uint8). */
  newtype byte = x: int | 0 <= x < 256

  /** A Go `(value, error)` pair where exactly one side is meaningful. */
  datatype Result<+T, +E> = Ok(value: T) | Err(error: E)

  /** A Go value that may be `nil`: an interface, a pointer or a map. */
  datatype Nullable<+T> = Nil | NonNil(value: T)
}
