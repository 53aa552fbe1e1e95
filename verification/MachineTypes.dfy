/** Machine integers. */
module MachineTypes {
  /** A byte as a number, where its order and arithmetic matter. */
  type Byte = n: int | 0 <= n < 256

  /** A byte as eight bits, where its bits matter. */
  type Octet = bv8

  const U64_LIMIT: nat := 0x1_0000_0000_0000_0000

  type U64 = n: nat | n < U64_LIMIT

  const U64_MAX: nat := U64_LIMIT - 1
}
