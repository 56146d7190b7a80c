/**
 Integer semantics of C that differ from Dafny's mathematical integers.

 C's `/` truncates toward zero and `%` takes the sign of the dividend, whereas
 Dafny's `/` and `%` are Euclidean. Conversions to `uint64_t` wrap modulo 2^64.
 */
module CArith {

  const Pow64: int := 0x1_0000_0000_0000_0000

  function Abs(x: int): nat {
    if x < 0 then -x else x
  }

  /** C's `a / b`: the quotient truncated toward zero. */
  function Div(a: int, b: int): int
    requires b != 0
  {
    var q0 := Abs(a) / Abs(b);
    if (a < 0) == (b < 0) then q0 else -q0
  }

  /** C's `a % b`: the remainder that goes with truncating division. */
  function Rem(a: int, b: int): int
    requires b != 0
  {
    a - Div(a, b) * b
  }

  /** On a non-negative dividend and a positive divisor C agrees with Dafny. */
  lemma NonNegativeAgrees(a: int, b: int)
    requires a >= 0 && b > 0
    ensures Div(a, b) == a / b && Rem(a, b) == a % b
  {
  }

  /** The truncating quotient of non-negative operands is non-negative. */
  lemma DivNonNegative(a: int, b: int)
    requires b != 0
    ensures a >= 0 && b > 0 ==> 0 <= Div(a, b) == a / b
  {
  }

  /** Multiplying by a non-negative factor preserves order. */
  lemma MulMono(a: int, b: int, k: int)
    requires k >= 0 && a <= b
    ensures a * k <= b * k
  {
  }

  /** Euclidean division is determined by any quotient/remainder pair with the remainder in range. */
  lemma DivUnique(n: int, d: int, q: int, r: int)
    requires d > 0 && n == q * d + r && 0 <= r < d
    ensures n / d == q && n % d == r
  {
    var q', r' := n / d, n % d;
    assert q' * d + r' == q * d + r;
    if q' < q {
      MulMono(q' + 1, q, d);
      assert false;
    } else if q' > q {
      MulMono(q + 1, q', d);
      assert false;
    }
  }

  /** `(uint64_t)x`: the two's-complement reinterpretation of an integer. */
  function U64(x: int): bv64
  {
    (x % Pow64) as bv64
  }

  /** `(uint64_t)x * k` in C: the product wraps modulo 2^64. */
  function MulU64(x: int, k: nat): bv64
  {
    ((x % Pow64) * k % Pow64) as bv64
  }
}

/** Option and Result types for the error paths of the modelled code. */
module Outcomes {

  datatype Option<+T> = None | Some(value: T)

  datatype Result<+T, +E> = Ok(value: T) | Err(error: E)
}
