// Shared value types: optional results and the fixed-width integers of the C++ code.
module Basics {

  datatype Option<+T> = None | Some(value: T)

  const U32: nat := 0x1_0000_0000
  const U64: nat := 0x1_0000_0000_0000_0000

  type u64 = x: nat | x < U64
}
