/** The rounding kernel (test-suites/test-palmy/helpers/utils/math.ts).

    Every amount, index and rate is an integer. The scenario suite configures its number
    library with zero decimal places and truncation towards zero, so each division below
    truncates towards zero, for negative operands too. A division by zero yields a
    non-number in the original; here it is excluded by a precondition. */
module FixedPoint {

  const RAY: int := 1_000_000_000_000_000_000_000_000_000
  const HALF_RAY: int := 500_000_000_000_000_000_000_000_000
  const WAD: int := 1_000_000_000_000_000_000
  const WAD_RAY_RATIO: int := 1_000_000_000
  const PERCENTAGE_FACTOR: int := 10_000
  const HALF_PERCENTAGE: int := 5_000
  const ONE_YEAR: int := 31_536_000

  function Abs(x: int): nat {
    if x < 0 then -x else x
  }

  /** Division truncating towards zero. */
  function TruncDiv(a: int, b: int): int
    requires b != 0
  {
    var q := Abs(a) / b;
    if a >= 0 then q else -q
  }

  function RayMul(a: int, b: int): int {
    TruncDiv(HALF_RAY + a * b, RAY)
  }

  function RayDiv(a: int, b: int): int
    requires b != 0
  {
    TruncDiv(TruncDiv(b, 2) + a * RAY, b)
  }

  function PercentMul(a: int, b: int): int {
    TruncDiv(HALF_PERCENTAGE + a * b, PERCENTAGE_FACTOR)
  }

  function WadToRay(a: int): int {
    a * WAD_RAY_RATIO
  }

  // ---------- What the operations mean ----------

  /** q is n / d rounded half up. */
  predicate IsRounded(n: int, d: int, q: int) {
    2 * n - d < 2 * (q * d) <= 2 * n + d
  }

  lemma TruncDivFloor(a: int, b: int)
    requires a >= 0 && b > 0
    ensures TruncDiv(a, b) >= 0 && TruncDiv(a, b) * b <= a < TruncDiv(a, b) * b + b
  {
    var q := a / b;
    assert a == b * q + a % b;
    MulCancel(-1, q, b);
  }

  /** On non-negative operands the ray product rounds half up. */
  lemma RayMulRounds(a: int, b: int)
    requires a >= 0 && b >= 0
    ensures a * b >= 0 && RayMul(a, b) >= 0
    ensures IsRounded(a * b, RAY, RayMul(a, b))
  {
    TruncDivFloor(HALF_RAY + a * b, RAY);
  }

  /** Although half of the divisor is itself truncated, on non-negative operands the ray quotient
      is exactly `a * RAY / b` rounded half up. */
  lemma RayDivRounds(a: int, b: int)
    requires a >= 0 && b > 0
    ensures RayDiv(a, b) >= 0
    ensures IsRounded(a * RAY, b, RayDiv(a, b))
  {
    TruncDivFloor(TruncDiv(b, 2) + a * RAY, b);
  }

  lemma PercentMulRounds(a: int, b: int)
    requires a >= 0 && b >= 0
    ensures a * b >= 0 && PercentMul(a, b) >= 0
    ensures IsRounded(a * b, PERCENTAGE_FACTOR, PercentMul(a, b))
  {
    TruncDivFloor(HALF_PERCENTAGE + a * b, PERCENTAGE_FACTOR);
  }

  /** Rounding half up has one answer. */
  lemma RoundedUnique(n: int, d: int, q: int, r: int)
    requires d > 0 && IsRounded(n, d, q) && IsRounded(n, d, r)
    ensures q == r
  {
    OneMore(q, d);
    OneMore(r, d);
    MulCancel(r, q + 1, d);
    MulCancel(q, r + 1, d);
  }

  lemma OneMore(q: int, d: int)
    ensures (q + 1) * d == q * d + d
  {
  }

  // ---------- Products and inequalities ----------

  lemma MulMono(a: int, b: int, c: int)
    requires a <= b && 0 <= c
    ensures a * c <= b * c
  {
  }

  /** A common positive factor can be cancelled from a strict inequality. */
  lemma MulCancel(a: int, b: int, c: int)
    requires 0 < c && a * c < b * c
    ensures a < b
  {
  }

  /** A truncated quotient is negative exactly when the dividend is below minus the divisor. */
  lemma TruncSign(n: int, d: int)
    requires d > 0
    ensures TruncDiv(n, d) < 0 <==> n <= -d
  {
    if n < 0 {
      TruncDivFloor(-n, d);
      var q := TruncDiv(-n, d);
      assert TruncDiv(n, d) == -q;
      if q >= 1 { MulMono(1, q, d); }
    } else {
      TruncDivFloor(n, d);
    }
  }

  // ---------- Ray products ----------

  lemma RayMulUnit(a: int)
    requires a >= 0
    ensures RayMul(a, RAY) == a && RayMul(RAY, a) == a
  {
  }

  lemma RayMulZero(a: int)
    ensures RayMul(a, 0) == 0 && RayMul(0, a) == 0
  {
  }

  lemma RayMulCommutes(a: int, b: int)
    ensures RayMul(a, b) == RayMul(b, a)
  {
  }

  lemma RayMulMono(a: int, b: int, c: int)
    requires 0 <= a <= b && 0 <= c
    ensures 0 <= RayMul(a, c) <= RayMul(b, c)
    ensures 0 <= RayMul(c, a) <= RayMul(c, b)
  {
    RayMulRounds(a, c);
    RayMulRounds(b, c);
    RayMulCommutes(a, c);
    RayMulCommutes(b, c);
    MulMono(a, b, c);
    hide RayMul;
  }

  /** Scaling by an index of at least one ray never shrinks an amount. */
  lemma RayMulGrows(a: int, index: int)
    requires a >= 0 && index >= RAY
    ensures RayMul(a, index) >= a && RayMul(index, a) >= a
  {
    RayMulUnit(a);
    RayMulMono(RAY, index, a);
  }

  // ---------- Ray quotients ----------

  lemma RayDivUnique(a: int, b: int, q: int)
    requires a >= 0 && b > 0 && IsRounded(a * RAY, b, q)
    ensures q == RayDiv(a, b)
  {
    hide RayDiv, IsRounded;
    RayDivRounds(a, b);
    RoundedUnique(a * RAY, b, q, RayDiv(a, b));
  }

  /** Ray division is monotone in the ratio of its operands. */
  lemma RayDivRatioMono(a1: int, b1: int, a2: int, b2: int)
    requires 0 <= a1 && 0 < b1 && 0 <= a2 && 0 < b2
    requires a1 * b2 <= a2 * b1
    ensures 0 <= RayDiv(a1, b1) <= RayDiv(a2, b2)
  {
    hide RayDiv;
    RayDivRounds(a1, b1);
    RayDivRounds(a2, b2);
    var q1, q2 := RayDiv(a1, b1), RayDiv(a2, b2);
    if q1 > q2 {
      // (2 q1 - 1) b1 <= 2 a1 RAY  and  2 a2 RAY < (2 q2 + 1) b2
      var x, y := 2 * q1 - 1, 2 * q2 + 1;
      assert x * b1 <= 2 * (a1 * RAY);
      assert 2 * (a2 * RAY) < y * b2;
      CrossMultiply(x, b1, 2 * RAY * a1, y, b2, 2 * RAY * a2);
      assert false;
    }
  }

  /** From x <= n1/d1, n2/d2 < y and n1/d1 <= n2/d2 follows x < y. */
  lemma CrossMultiply(x: int, d1: int, n1: int, y: int, d2: int, n2: int)
    requires d1 > 0 && d2 > 0
    requires x * d1 <= n1 && n2 < y * d2
    requires n1 * d2 <= n2 * d1
    ensures x < y
  {
    MulMono(x * d1, n1, d2);
    assert n2 * d1 < y * d2 * d1 by { MulStrict(n2, y * d2, d1); }
    assert x * d1 * d2 == x * (d1 * d2) && y * d2 * d1 == y * (d1 * d2);
    assert d1 * d2 > 0;
    MulCancel(x, y, d1 * d2);
  }

  lemma MulStrict(a: int, b: int, c: int)
    requires a < b && 0 < c
    ensures a * c < b * c
  {
  }

  lemma RayDivMono(a1: int, a2: int, b: int)
    requires 0 <= a1 <= a2 && 0 < b
    ensures 0 <= RayDiv(a1, b) <= RayDiv(a2, b)
  {
    hide RayDiv, IsRounded;
    MulMono(a1, a2, b);
    RayDivRatioMono(a1, b, a2, b);
  }

  lemma RayDivSelf(b: int)
    requires b > 0
    ensures RayDiv(b, b) == RAY
  {
    RayDivUnique(b, b, RAY);
  }

  lemma RayDivZero(b: int)
    requires b > 0
    ensures RayDiv(0, b) == 0
  {
    RayDivUnique(0, b, 0);
  }

  /** A part of a whole is at most one ray. */
  lemma RayDivAtMostRay(a: int, b: int)
    requires 0 <= a <= b && 0 < b
    ensures 0 <= RayDiv(a, b) <= RAY
  {
    RayDivSelf(b);
    RayDivRatioMono(a, b, b, b);
  }

  // ---------- Scaling and unscaling ----------

  /** Unscaling what was scaled by an index of at least one ray returns the amount exactly. */
  lemma RoundTrip(s: int, index: int)
    requires s >= 0 && index >= RAY
    ensures RayDiv(RayMul(s, index), index) == s
  {
    RayMulRounds(s, index);
    if index == RAY {
      RayMulUnit(s);
    }
    hide RayMul, RayDiv;
    RayDivUnique(RayMul(s, index), index, s);
  }

  ghost predicate RoundTripsAll(index: int)
    requires index > 0
  {
    forall s :: s >= 0 ==> RayDiv(RayMul(s, index), index) == s
  }

  /** The round trip is exact for every amount precisely when the index is at least one ray. */
  lemma RoundTripIff(index: int)
    requires index > 0
    ensures RoundTripsAll(index) <==> index >= RAY
  {
    if index >= RAY {
      forall s | s >= 0 ensures RayDiv(RayMul(s, index), index) == s {
        RoundTrip(s, index);
      }
    }
    if RoundTripsAll(index) {
      InjectiveScalingGrows(RAY, index);
      assert RayMul(RAY, index) == index by { RayMulUnit(index); }
    }
  }

  /** If unscaling undoes scaling, scaling is strictly increasing, so it never shrinks. */
  lemma {:induction false} InjectiveScalingGrows(n: nat, index: int)
    requires index > 0 && RoundTripsAll(index)
    ensures RayMul(n, index) >= n
  {
    if n > 0 {
      InjectiveScalingGrows(n - 1, index);
      RayMulMono(n - 1, n, index);
      assert RayDiv(RayMul(n, index), index) == n;
      assert RayDiv(RayMul(n - 1, index), index) == n - 1;
    }
  }

  /** An amount within a scaled balance unscales to at most that balance. */
  lemma UnscaleWithin(a: int, s: int, index: int)
    requires 0 <= a && 0 <= s && index >= RAY
    requires a <= RayMul(s, index)
    ensures 0 <= RayDiv(a, index) <= s
  {
    hide RayMul, RayDiv;
    RoundTrip(s, index);
    RayDivMono(a, RayMul(s, index), index);
  }
}
