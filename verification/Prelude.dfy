/** Shared vocabulary: optional values, results, bytes and machine integers. */
module Prelude {

  datatype Option<+T> = None | Some(value: T)

  datatype Result<+T, +E> = Ok(value: T) | Err(error: E)

  /** The bytes of a Rust `&str` or `&[u8]`. */
  type byte = b: int | 0 <= b < 256
  type Bytes = seq<byte>

  const I128_MIN: int := -0x8000_0000_0000_0000_0000_0000_0000_0000
  const I128_MAX: int := 0x7fff_ffff_ffff_ffff_ffff_ffff_ffff_ffff
  type i128 = x: int | I128_MIN <= x <= I128_MAX

  const I64_MIN: int := -0x8000_0000_0000_0000
  const I64_MAX: int := 0x7fff_ffff_ffff_ffff
  type i64 = x: int | I64_MIN <= x <= I64_MAX

  predicate FitsI128(x: int) { I128_MIN <= x <= I128_MAX }

  /** Rust's `/` for a positive divisor: it drops the fraction, rounding toward zero. */
  function TruncDiv(a: int, b: int): int
    requires b > 0
  {
    if a >= 0 then a / b else -((-a) / b)
  }

  /** The quotient leaves a remainder smaller than the divisor, with the sign of the dividend. */
  lemma TruncDivRounds(a: int, b: int)
    requires b > 0
    ensures var r := a - TruncDiv(a, b) * b;
            if a >= 0 then 0 <= r < b else -b < r <= 0
  {
    assert a >= 0 ==> a == a / b * b + a % b;
    assert a < 0 ==> -a == (-a) / b * b + (-a) % b;
  }

  function Pow2(n: nat): nat { if n == 0 then 1 else 2 * Pow2(n - 1) }

  /** The bounds are those of two's complement integers of 64 and 128 bits. */
  lemma MachineBounds()
    ensures I64_MAX == Pow2(63) - 1 && I64_MIN == 0 - Pow2(63)
    ensures I128_MAX == Pow2(127) - 1 && I128_MIN == 0 - Pow2(127)
  {
    hide Pow2;
    SmallPower();
    SquarePow2(4, 0x10);
    SquarePow2(8, 0x100);
    SquarePow2(16, 0x1_0000);
    SquarePow2(32, 0x1_0000_0000);
    SquarePow2(64, 0x1_0000_0000_0000_0000);
  }

  lemma SmallPower()
    ensures Pow2(4) == 0x10
  {
    assert Pow2(2) == 4;
  }

  lemma SquarePow2(n: nat, v: nat)
    requires n > 0 && Pow2(n) == v
    ensures Pow2(2 * n) == v * v && 2 * Pow2(2 * n - 1) == v * v
  {
    DoublePow2(n, n);
    assert Pow2(2 * n) == 2 * Pow2(2 * n - 1);
  }

  lemma {:induction false} DoublePow2(m: nat, n: nat)
    ensures Pow2(m + n) == Pow2(m) * Pow2(n)
  {
    if n > 0 {
      DoublePow2(m, n - 1);
    }
  }
}
