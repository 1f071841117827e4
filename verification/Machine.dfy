/** Fixed-width unsigned integers, the saturating operations the executor uses on them, and shared constants. */
module Machine {

  const U16_MAX: nat := 0xFFFF
  const U64_MAX: nat := 0xFFFF_FFFF_FFFF_FFFF
  const I128_MAX: int := 0x7FFF_FFFF_FFFF_FFFF_FFFF_FFFF_FFFF_FFFF
  const U128_MAX: nat := 0xFFFF_FFFF_FFFF_FFFF_FFFF_FFFF_FFFF_FFFF
  const U256_MAX: nat := 0xFFFF_FFFF_FFFF_FFFF_FFFF_FFFF_FFFF_FFFF_FFFF_FFFF_FFFF_FFFF_FFFF_FFFF_FFFF_FFFF

  /** The gas of a bare transaction. */
  const TX_GAS: nat := 21_000
  const ARBOS_VERSION_50: nat := 50

  type U16 = x: nat | x <= U16_MAX
  type U64 = x: nat | x <= U64_MAX
  type U128 = x: nat | x <= U128_MAX
  type U256 = x: nat | x <= U256_MAX

  function Min(x: int, y: int): int {
    if x <= y then x else y
  }

  function Max(x: int, y: int): int {
    if x <= y then y else x
  }

  /** `saturating_sub`, at every width. */
  function SatSub(x: nat, y: nat): nat {
    if x < y then 0 else x - y
  }

  function SatAdd64(x: U64, y: U64): U64 {
    Min(x + y, U64_MAX)
  }

  function SatMul64(x: U64, y: U64): U64 {
    Min(x * y, U64_MAX)
  }

  function SatAdd128(x: U128, y: U128): U128 {
    Min(x + y, U128_MAX)
  }

  function SatAdd256(x: U256, y: U256): U256 {
    Min(x + y, U256_MAX)
  }

  function SatMul256(x: U256, y: U256): U256 {
    Min(x * y, U256_MAX)
  }

  lemma ProductDistributes(x: int, y: int, z: int)
    ensures (x + y) * z == x * z + y * z && z * (x + y) == z * x + z * y
  {
  }

  lemma ProductMonotone(x: nat, y: nat, a: nat, b: nat)
    requires x <= y && a <= b
    ensures x * a <= y * b
  {
    assert x * a <= y * a <= y * b;
  }
}
