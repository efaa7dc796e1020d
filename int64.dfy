/** The interpreter's cell type `Int` (a C `long`, taken as 64-bit two's complement)
    and the `wrapping_*` operations that the interpreter and the JIT apply to it. */
module Int64 {

  const Modulus: int := 0x1_0000_0000_0000_0000
  const Min: int := -0x8000_0000_0000_0000
  const Max: int := 0x7FFF_FFFF_FFFF_FFFF

  /** A value of Rust's `c_long` / `i64`. */
  type Int = x: int | -0x8000_0000_0000_0000 <= x <= 0x7FFF_FFFF_FFFF_FFFF

  function Abs(x: int): nat {
    if x < 0 then -x else x
  }

  /** The 64-bit value with the same low 64 bits as `x`. */
  function Wrap(x: int): (r: Int)
    ensures (r - x) % Modulus == 0
    ensures Min <= x <= Max ==> r == x
  {
    (x - Min) % Modulus + Min
  }

  /** Division rounding toward zero, as Rust's `/` on integers. */
  function TruncDiv(a: int, b: int): int
    requires b != 0
  {
    if (a < 0) == (b < 0) then Abs(a) / Abs(b) else -(Abs(a) / Abs(b))
  }

  /** The remainder of `TruncDiv`: it takes the sign of the dividend. */
  function TruncRem(a: int, b: int): int
    requires b != 0
  {
    if a < 0 then -(Abs(a) % Abs(b)) else Abs(a) % Abs(b)
  }

  /** Truncating division is a division: quotient times divisor plus remainder gives
      back the dividend, the remainder is smaller than the divisor and has the sign of
      the dividend. */
  lemma TruncDivision(a: int, b: int)
    requires b != 0
    ensures a == TruncDiv(a, b) * b + TruncRem(a, b)
    ensures Abs(TruncRem(a, b)) < Abs(b)
    ensures TruncRem(a, b) == 0 || (TruncRem(a, b) < 0 <==> a < 0)
    ensures Abs(TruncDiv(a, b)) <= Abs(a)
  {
    var A, B := Abs(a), Abs(b);
    var q: int, r: int := A / B, A % B;
    QuotientBound(A, B);
    if (a < 0) == (b < 0) {
      assert TruncDiv(a, b) == q;
    } else {
      assert TruncDiv(a, b) == -q;
    }
    SignedDivision(a, b, q, r);
  }

  /** The Euclidean quotient of a natural number is no larger than the number. */
  lemma QuotientBound(A: nat, B: nat)
    requires B > 0
    ensures A == (A / B) * B + A % B
    ensures A / B <= A
  {
    var q := A / B;
    NonNegativeProduct(q, B - 1);
    assert q * B == q * (B - 1) + q;
  }

  lemma NonNegativeProduct(x: int, y: int)
    requires 0 <= x && 0 <= y
    ensures 0 <= x * y
  {
  }

  /** The magnitudes' division, with the signs put back. */
  lemma SignedDivision(a: int, b: int, q: int, r: int)
    requires b != 0 && 0 <= q && 0 <= r < Abs(b) && Abs(a) == q * Abs(b) + r
    ensures a == (if (a < 0) == (b < 0) then q else -q) * b + (if a < 0 then -r else r)
  {
    if a < 0 && b < 0 {
      assert q * b == -(q * Abs(b));
    } else if a < 0 {
      assert (-q) * b == -(q * Abs(b));
    } else if b < 0 {
      assert (-q) * b == q * Abs(b);
    }
  }

  function WrappingAdd(a: Int, b: Int): (r: Int)
    ensures (r - (a + b)) % Modulus == 0
    ensures Min <= a + b <= Max ==> r == a + b
  {
    Wrap(a + b)
  }

  function WrappingSub(a: Int, b: Int): (r: Int)
    ensures (r - (a - b)) % Modulus == 0
    ensures Min <= a - b <= Max ==> r == a - b
  {
    Wrap(a - b)
  }

  function WrappingMul(a: Int, b: Int): (r: Int)
    ensures (r - a * b) % Modulus == 0
    ensures Min <= a * b <= Max ==> r == a * b
  {
    Wrap(a * b)
  }

  /** `i64::wrapping_div`: truncating division; the one overflowing case,
      `Min / -1`, wraps to `Min`. A zero divisor panics, so it is excluded here. */
  function WrappingDiv(a: Int, b: Int): (r: Int)
    requires b != 0
    ensures !(a == Min && b == -1) ==> r == TruncDiv(a, b)
    ensures a == Min && b == -1 ==> r == Min
  {
    TruncDivision(a, b);
    Wrap(TruncDiv(a, b))
  }

  /** `i64::wrapping_rem`: the remainder of truncating division (always representable). */
  function WrappingRem(a: Int, b: Int): (r: Int)
    requires b != 0
    ensures a == TruncDiv(a, b) * b + r
    ensures Abs(r) < Abs(b)
    ensures r == 0 || (r < 0 <==> a < 0)
  {
    TruncDivision(a, b);
    TruncRem(a, b)
  }

  /** `x as i8 as Int`: the byte read back as a signed 8-bit value. */
  function SignExtend(b: int): (r: Int)
    requires 0 <= b < 256
    ensures -128 <= r < 128
    ensures (r - b) % 256 == 0
  {
    if b < 128 then b else b - 256
  }

  /** `x as u8`: the low 8 bits. */
  function LowByte(v: int): (r: int)
    ensures 0 <= r < 256
    ensures (r - v) % 256 == 0
  {
    v % 256
  }

  /** A signed 8-bit value survives the byte store and signed read-back. */
  lemma SignExtendLowByte(v: int)
    requires -128 <= v < 128
    ensures SignExtend(LowByte(v)) == v
  {
  }
}
