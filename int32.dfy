/**
 * Rust's `i32` and the integer operators the evaluator applies to it.
 * Dafny's `/` and `%` are Euclidean; Rust's truncate toward zero, so the
 * truncating quotient and remainder are defined here explicitly, from the
 * quotient and remainder of the magnitudes.
 */
module Int32 {

  const MIN: int := -0x8000_0000
  const MAX: int := 0x7FFF_FFFF

  type Int32 = x: int | MIN <= x <= MAX

  predicate InRange(x: int) { MIN <= x <= MAX }

  function Abs(x: int): nat { if x < 0 then -x else x }

  /** Rust's `b / a`: the quotient of the magnitudes, negated when the signs differ. */
  function TruncDiv(b: int, a: int): int
    requires a != 0
  {
    var m := Abs(b) / Abs(a);
    if (b >= 0) == (a > 0) then m else -m
  }

  /** Rust's `b % a`: the remainder of the magnitudes, carrying the dividend's sign. */
  function TruncRem(b: int, a: int): int
    requires a != 0
  {
    var r := Abs(b) % Abs(a);
    if b >= 0 then r else -r
  }

  /**
   * The pair is a division of `b` by `a`: `b == q * a + r`, the remainder is
   * smaller than the divisor in magnitude and is zero or has the dividend's sign.
   */
  lemma TruncDivision(b: int, a: int)
    requires a != 0
    ensures b == TruncDiv(b, a) * a + TruncRem(b, a)
    ensures Abs(TruncRem(b, a)) < Abs(a)
    ensures TruncRem(b, a) == 0 || ((TruncRem(b, a) > 0) <==> (b > 0))
  {
  }

  /** The quotient is rounded toward zero: its magnitude is the largest `k` with `k * |a| <= |b|`, and it is zero, or it is positive exactly when the signs of the operands agree. */
  lemma TruncDivRoundsTowardZero(b: int, a: int)
    requires a != 0
    ensures Abs(TruncDiv(b, a)) * Abs(a) <= Abs(b) < (Abs(TruncDiv(b, a)) + 1) * Abs(a)
    ensures TruncDiv(b, a) == 0 || ((TruncDiv(b, a) > 0) <==> ((b > 0) == (a > 0)))
  {
    var A: int, B: int := Abs(a), Abs(b);
    var m: int := B / A;
    DivMod(B, A);
    NextMultiple(m, A);
  }

  /** Division of a non-negative number by a positive one, with the bounds of its quotient. */
  lemma DivMod(B: int, A: int)
    requires B >= 0 && A > 0
    ensures B == (B / A) * A + B % A && 0 <= B % A < A && 0 <= B / A <= B
  {
    var m, r := B / A, B % A;
    assert B == m * A + r && 0 <= r < A;
    Scale(m, A);
  }

  lemma Scale(m: int, A: int)
    requires A >= 1
    ensures m >= 0 ==> m * A >= m
    ensures m < 0 ==> m * A <= m
  {
  }

  lemma NextMultiple(m: int, A: int)
    ensures (m + 1) * A == m * A + A
  {
  }

  /**
   * The truncating quotient of two `i32` values is again an `i32` in every
   * case but one: `i32::MIN / -1`, the case Rust reports as an overflow.
   */
  lemma TruncDivOverflowsOnlyAtMinByMinusOne(b: Int32, a: Int32)
    requires a != 0
    ensures InRange(TruncDiv(b, a)) <==> !(b == MIN && a == -1)
  {
  }

  /** The truncating remainder of two `i32` values is an `i32`. */
  lemma TruncRemInRange(b: Int32, a: Int32)
    requires a != 0
    ensures InRange(TruncRem(b, a))
  {
  }
}
