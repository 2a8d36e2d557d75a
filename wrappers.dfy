/** A C# reference that may be null, and the range of the CLR's 32-bit integers. */
module Wrappers {

  /** `None` stands for a null reference, `Some(v)` for a reference to `v`. */
  datatype Option<+T> = None | Some(value: T)

  /** Bounds of `System.Int32`, the underlying type of every C# enum of this model. */
  const Int32Min: int := -0x8000_0000
  const Int32Max: int := 0x7FFF_FFFF
}
