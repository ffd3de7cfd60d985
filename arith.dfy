/** Facts about multiplication and Euclidean division by a positive divisor, for batch and
    page arithmetic. */
module Arith {

  lemma MulNonNeg(a: int, b: int)
    requires a >= 0 && b >= 0
    ensures a * b >= 0
  {
  }

  lemma MulAtLeast(a: int, b: int)
    requires a >= 1 && b >= 1
    ensures a * b >= b
  {
    assert a * b == (a - 1) * b + b;
    MulNonNeg(a - 1, b);
  }

  /** A multiple of b divides exactly. */
  lemma MulDivExact(j: int, b: int)
    requires b >= 1
    ensures (j * b) / b == j && (j * b) % b == 0
  {
    var x := j * b;
    var q, r := x / b, x % b;
    assert x == q * b + r && 0 <= r < b;
    assert (j - q) * b == r;
    if j - q >= 1 {
      MulAtLeast(j - q, b);
    } else if j - q <= -1 {
      MulAtLeast(q - j, b);
    }
  }

  /** Multiplying by a non-negative factor keeps the order. */
  lemma MulMonotone(j: int, k: int, b: int)
    requires j <= k && b >= 0
    ensures j * b <= k * b
  {
    MulNonNeg(k - j, b);
    assert k * b - j * b == (k - j) * b;
  }

  /** Adding the divisor to a multiple of it gives a multiple of it. */
  lemma ModShift(x: nat, b: nat)
    requires b >= 1 && x % b == 0
    ensures (b + x) % b == 0
  {
    var q := x / b;
    assert x == q * b;
    assert b + x == (q + 1) * b;
    MulDivExact(q + 1, b);
  }
}
