/** Machine-word arithmetic shared by the components. */
module Words {
  newtype Byte = x: int | 0 <= x < 256

  const U64_MAX: nat := 0xFFFF_FFFF_FFFF_FFFF
  const I64_MAX: nat := 0x7FFF_FFFF_FFFF_FFFF

  function Min(a: int, b: int): (r: int) {
    if a <= b then a else b
  }

  /** `u64::saturating_add` (and `usize` on a 64-bit host). */
  function SatAdd(a: nat, b: nat): (r: nat)
    ensures r <= U64_MAX
  {
    if a + b <= U64_MAX then a + b else U64_MAX
  }

  /** `u64::saturating_sub`. */
  function SatSub(a: nat, b: nat): (r: nat) {
    if b <= a then a - b else 0
  }

  /** The `u64 as i64` cast: values from 2^63 up become negative. */
  function AsI64(v: nat): (r: int)
    requires v <= U64_MAX
  {
    if v <= I64_MAX then v else v - U64_MAX - 1
  }
}
