/** Machine words and the option type that the EVM modules share. */
module Basics {

  const TWO64: nat := 0x1_0000_0000_0000_0000
  const TWO256: nat := 0x1_0000000000000000_0000000000000000_0000000000000000_0000000000000000

  type Byte = x: nat | x < 256
  type U64 = x: nat | x < 0x1_0000_0000_0000_0000
  type U256 = x: nat | x < 0x1_0000000000000000_0000000000000000_0000000000000000_0000000000000000

  datatype Option<+T> = None | Some(value: T)
}
