/** Fixed-point constants, checked machine arithmetic, and the few facts about
    floor division that every rounding argument below is built from. */
module FixedPoint {
  import opened Outcomes

  const WAD: int := 1_000_000_000_000_000_000
  const BPS: int := 10_000
  const U32_MAX: int := 0xFFFF_FFFF
  const U64_MAX: int := 0xFFFF_FFFF_FFFF_FFFF
  const U128_MAX: int := 0xFFFF_FFFF_FFFF_FFFF_FFFF_FFFF_FFFF_FFFF
  const I64_MAX: int := 0x7FFF_FFFF_FFFF_FFFF

  function AddU64(a: int, b: int): Result<int> {
    if a + b > U64_MAX then Failure(MathOverflow) else Success(a + b)
  }

  function SubChecked(a: int, b: int): Result<int> {
    if a < b then Failure(MathOverflow) else Success(a - b)
  }

  function AddU128(a: int, b: int): Result<int> {
    if a + b > U128_MAX then Failure(MathOverflow) else Success(a + b)
  }

  function MulU128(a: int, b: int): Result<int> {
    if a * b > U128_MAX then Failure(MathOverflow) else Success(a * b)
  }

  function ToU64(a: int): Result<int> {
    if a > U64_MAX then Failure(MathOverflow) else Success(a)
  }

  /** `saturating_sub` on unsigned integers. */
  function SatSub(a: int, b: int): int {
    if a < b then 0 else a - b
  }

  function Min(a: int, b: int): int {
    if a <= b then a else b
  }

  function Max(a: int, b: int): int {
    if a <= b then b else a
  }

  /** Quotient rounded up. */
  function CeilDiv(a: int, d: int): int
    requires d > 0
  {
    (a + d - 1) / d
  }

  lemma MulLe(a: int, b: int, c: int)
    requires a <= b && 0 <= c
    ensures a * c <= b * c && c * a <= c * b
  {
  }

  lemma MulCancel(a: int, b: int, c: int)
    requires 0 < c && a * c <= b * c
    ensures a <= b
  {
  }

  lemma MulCancelLt(a: int, b: int, c: int)
    requires 0 < c && a * c < b * c
    ensures a < b
  {
  }

  lemma DivBounds(a: int, d: int)
    requires d > 0
    ensures d * (a / d) <= a < d * (a / d) + d
  {
  }

  lemma DivAtLeast(a: int, d: int, q: int)
    requires d > 0 && d * q <= a
    ensures q <= a / d
  {
    DivBounds(a, d);
    if q > a / d {
      MulLe(a / d + 1, q, d);
    }
  }

  lemma DivAtMost(a: int, d: int, q: int)
    requires d > 0 && a < d * q + d
    ensures a / d <= q
  {
    DivBounds(a, d);
    if q < a / d {
      MulLe(q + 1, a / d, d);
    }
  }

  lemma DivIs(a: int, d: int, q: int)
    requires d > 0 && d * q <= a < d * q + d
    ensures a / d == q
  {
    DivAtLeast(a, d, q);
    DivAtMost(a, d, q);
  }

  lemma DivMono(a: int, b: int, d: int)
    requires d > 0 && a <= b
    ensures a / d <= b / d
  {
    DivBounds(a, d);
    DivAtLeast(b, d, a / d);
  }

  lemma DivNonNegative(a: int, d: int)
    requires d > 0 && a >= 0
    ensures 0 <= a / d
  {
  }

  /** Splitting a sum before flooring never gains. */
  lemma DivSuperadditive(a: int, b: int, d: int)
    requires d > 0
    ensures a / d + b / d <= (a + b) / d
  {
    DivBounds(a, d);
    DivBounds(b, d);
    assert d * (a / d + b / d) == d * (a / d) + d * (b / d);
    DivAtLeast(a + b, d, a / d + b / d);
  }

  lemma CeilBounds(a: int, d: int)
    requires d > 0
    ensures d * CeilDiv(a, d) - d < a <= d * CeilDiv(a, d)
  {
  }

  lemma CeilIs(a: int, d: int, q: int)
    requires d > 0 && d * q - d < a <= d * q
    ensures CeilDiv(a, d) == q
  {
    DivIs(a + d - 1, d, q);
  }
}
