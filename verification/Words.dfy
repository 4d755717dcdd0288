/** Machine words and the arithmetic the Rust sources use on them. */
module Words {
  const U64_MAX: nat := 0xFFFF_FFFF_FFFF_FFFF
  const U128_MAX: nat := 0xFFFF_FFFF_FFFF_FFFF_FFFF_FFFF_FFFF_FFFF

  type u64 = x: int | 0 <= x <= U64_MAX
  type u128 = x: int | 0 <= x <= U128_MAX

  datatype Option<+T> = None | Some(value: T)

  function Min(x: int, y: int): int {
    if x <= y then x else y
  }

  function Max(x: int, y: int): int {
    if x <= y then y else x
  }

  /** Subtraction that stops at zero, as `saturating_sub` does. */
  function Monus(x: nat, y: nat): nat {
    if y <= x then x - y else 0
  }

  /** `u128::saturating_add` */
  function SatAdd(x: u128, y: u128): u128 {
    if x + y <= U128_MAX then x + y else U128_MAX
  }

  /** `u128::saturating_sub` */
  function SatSub(x: u128, y: u128): u128 {
    if y <= x then x - y else 0
  }

  /** `u128::wrapping_add`, which is also `+` in a release build */
  function WrapAdd(x: u128, y: u128): u128 {
    if x + y <= U128_MAX then x + y else x + y - U128_MAX - 1
  }
}
