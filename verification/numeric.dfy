/** Numeric conventions shared by the whole model.

    The C sources compute in `double` and `int`.  Here `double` is `real`
    (no rounding) and `int` is `int` (no 32-bit range).  The C conversions
    and operators that differ from Dafny's are written out explicitly. */
module CNum {

  datatype Option<T> = None | Some(value: T)

  /** The C conversion `(int)x` of a double: truncation toward zero. */
  function Trunc(x: real): (r: int)
    ensures x >= 0.0 ==> r as real <= x < r as real + 1.0
    ensures x < 0.0 ==> r as real - 1.0 < x <= r as real
    ensures x >= 0.0 ==> r >= 0
    ensures x <= 0.0 ==> r <= 0
  {
    if x >= 0.0 then x.Floor else -((-x).Floor)
  }

  /** C99 integer division `a / b`, which truncates toward zero
      (Dafny's `/` on `int` is Euclidean). */
  function CDiv(a: int, b: int): (q: int)
    requires b != 0
    ensures a >= 0 && b > 0 ==> q * b <= a < q * b + b
    ensures (a >= 0) == (b > 0) ==> q >= 0
    ensures (a <= 0) == (b > 0) ==> q <= 0
  {
    if a >= 0 && b > 0 then a / b
    else if a >= 0 then -(a / (-b))
    else if b > 0 then -((-a) / b)
    else (-a) / (-b)
  }

  /** C's `abs` on int. */
  function CAbs(x: int): (r: int)
    ensures r >= 0 && (r == x || r == -x)
  {
    if x < 0 then -x else x
  }

  /** Multiplication by a non-negative factor is monotone. */
  lemma {:induction false} MulMonotone(a: int, b: int, k: nat)
    requires a <= b
    ensures a * k <= b * k
  {
    if k > 0 {
      MulMonotone(a, b, k - 1);
      assert a * k == a * (k - 1) + a;
      assert b * k == b * (k - 1) + b;
    }
  }

  /** C99 remainder `a % b`: `a == CDiv(a, b) * b + CRem(a, b)`. */
  function CRem(a: int, b: int): (m: int)
    requires b != 0
    ensures a == CDiv(a, b) * b + m
    ensures a >= 0 ==> 0 <= m < (if b > 0 then b else -b)
    ensures a < 0 ==> -(if b > 0 then b else -b) < m <= 0
  {
    a - CDiv(a, b) * b
  }

  /** Real division.  Division by zero produces an IEEE infinity or NaN
      in C; that value is outside this model, which yields 0 there, and
      every contract that uses `Quot` guards the divisor. */
  function Quot(a: real, b: real): (q: real)
    ensures b != 0.0 ==> q * b == a
  {
    if b == 0.0 then 0.0 else a / b
  }

  /** The C library functions the sources call.  Dafny cannot define
      `sqrt` and `pow` on reals, so every member that needs them takes
      them as a parameter; facts about them enter as preconditions. */
  datatype Libm = Libm(sqrt: real -> real, pow: (real, real) -> real)
}
