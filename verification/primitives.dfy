/** Machine integers of the Solana program and the `unwrap_or(0)` arithmetic it uses. */
module Primitives {

  const U64_MAX: int := 0xFFFF_FFFF_FFFF_FFFF
  const U128_MAX: int := 0xFFFF_FFFF_FFFF_FFFF_FFFF_FFFF_FFFF_FFFF
  const I64_MIN: int := -0x8000_0000_0000_0000
  const I64_MAX: int := 0x7FFF_FFFF_FFFF_FFFF
  /** 2^64: a cast `as u64` keeps its operand modulo this. */
  const U64_MODULUS: int := U64_MAX + 1

  type U64 = x: int | 0 <= x <= U64_MAX
  type U128 = x: int | 0 <= x <= U128_MAX
  /** Unix timestamps and durations (`i64`). */
  type I64 = x: int | I64_MIN <= x <= I64_MAX

  /** A 32-byte account address read as a number; `Pubkey::default()` is all zeros. */
  type Pubkey = nat
  const DEFAULT_PUBKEY: Pubkey := 0

  datatype Option<+T> = None | Some(value: T)

  datatype Result<+T, +E> = Ok(value: T) | Err(error: E)

  /** `a.checked_add(b).unwrap_or(0)` on an unsigned type whose largest value is `max`. */
  function AddOrZero(a: nat, b: nat, max: nat): (r: nat)
    ensures r <= max
    ensures a + b <= max ==> r == a + b
    ensures a + b > max ==> r == 0
  {
    if a + b <= max then a + b else 0
  }

  /** `a.checked_mul(b).unwrap_or(0)` on an unsigned type whose largest value is `max`. */
  function MulOrZero(a: nat, b: nat, max: nat): (r: nat)
    ensures r <= max
    ensures a * b <= max ==> r == a * b
    ensures a * b > max ==> r == 0
  {
    if a * b <= max then a * b else 0
  }

  /** `a.checked_sub(b).unwrap_or(0)` on an unsigned type: it saturates at zero. */
  function SubOrZero(a: nat, b: nat): (r: nat)
    ensures r <= a
    ensures b <= a ==> r + b == a
    ensures a < b ==> r == 0
  {
    if b <= a then a - b else 0
  }

  /** `x as u64` on a non-negative value: only the low 64 bits survive. */
  function TruncateU64(x: nat): (r: U64)
    ensures x <= U64_MAX ==> r == x
    ensures r <= x && (x - r) % U64_MODULUS == 0
  {
    x % U64_MODULUS
  }

  /**
   * The product of two values that fit in a `u64` always fits in 128 bits. This covers
   * the accrual `rate * elapsed`: a positive difference of two `i64` values is at most
   * `i64::MAX - i64::MIN`, which is `u64::MAX`.
   */
  lemma MulFitsU128(a: nat, b: nat)
    requires a <= U64_MAX && b <= U64_MAX
    ensures a * b <= U128_MAX
  {
    calc {
      a * b;
    <= { MulMonotone(a, U64_MAX, b); }
      U64_MAX * b;
    <= { MulMonotone(b, U64_MAX, U64_MAX); }
      U64_MAX * U64_MAX;
    <=
      U128_MAX;
    }
  }

  lemma MulDistributes(a: nat, b: nat, c: nat)
    ensures a * (b + c) == a * b + a * c
  {
  }

  lemma MulPositive(a: nat, b: nat)
    requires a > 0 && b > 0
    ensures a * b > 0
  {
  }

  lemma MulMonotone(a: nat, b: nat, c: nat)
    requires a <= b
    ensures a * c <= b * c
  {
  }
}
