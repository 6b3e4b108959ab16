/**
 * The fixed-width integers of the Rust code, as ranges of unbounded integers.
 * Conversions and arithmetic that can leave the range are written out; where Rust
 * would panic on overflow in a debug build, the release-build wrap-around is modelled.
 */
module Numeric {

  const U32_BOUND: int := 0x1_0000_0000
  const U64_BOUND: int := 0x1_0000_0000_0000_0000
  const I64_BOUND: int := 0x8000_0000_0000_0000

  type U32 = x: int | 0 <= x < 0x1_0000_0000
  type U64 = x: int | 0 <= x < 0x1_0000_0000_0000_0000
  type I64 = x: int | -0x8000_0000_0000_0000 <= x < 0x8000_0000_0000_0000

  /** `t as i64` for a `u64`: two's-complement reinterpretation of the same 64 bits. */
  function U64ToI64(t: U64): (r: I64)
    ensures t < I64_BOUND ==> r == t
    ensures t >= I64_BOUND ==> r < 0 && r + U64_BOUND == t
  {
    if t < I64_BOUND then t else t - U64_BOUND
  }

  /** `x as u64` for an `i64`: two's-complement reinterpretation of the same 64 bits. */
  function I64ToU64(x: I64): (r: U64)
    ensures x >= 0 ==> r == x
    ensures x < 0 ==> r == x + U64_BOUND && r >= I64_BOUND
  {
    if x >= 0 then x else x + U64_BOUND
  }

  /** `a + b` on `u64` with wrap-around. */
  function WrappingAdd(a: U64, b: U64): (r: U64)
    ensures a + b < U64_BOUND ==> r == a + b
    ensures a + b >= U64_BOUND ==> r == a + b - U64_BOUND
  {
    (a + b) % U64_BOUND
  }

  /** `a * b` on `u64` with wrap-around. */
  function WrappingMul(a: U64, b: U64): (r: U64)
    ensures a * b < U64_BOUND ==> r == a * b
  {
    var p := a * b;
    if p < U64_BOUND then p else p % U64_BOUND
  }

  /** The two casts undo each other: an `i64` survives the trip through `u64`. */
  lemma CastRoundTrip(x: I64, t: U64)
    ensures U64ToI64(I64ToU64(x)) == x
    ensures I64ToU64(U64ToI64(t)) == t
  {
  }
}
