/** Accrued interest: linear for deposits, third-order binomial for debt
    (test-suites/test-palmy/helpers/utils/calculations.ts). */
module Interest {
  import opened FixedPoint

  /** Seconds since the last update. */
  function Elapsed(currentTimestamp: int, lastUpdateTimestamp: int): int {
    currentTimestamp - lastUpdateTimestamp
  }

  function LinearInterest(rate: int, currentTimestamp: int, lastUpdateTimestamp: int): int {
    var timeDifference := Elapsed(currentTimestamp, lastUpdateTimestamp);
    TruncDiv(rate * timeDifference, ONE_YEAR) + RAY
  }

  function RatePerSecond(rate: int): int {
    TruncDiv(rate, ONE_YEAR)
  }

  function CompoundedInterest(rate: int, currentTimestamp: int, lastUpdateTimestamp: int): int {
    var timeDifference := Elapsed(currentTimestamp, lastUpdateTimestamp);
    if timeDifference == 0 then RAY
    else
      var expMinusOne := timeDifference - 1;
      var expMinusTwo := if timeDifference > 2 then timeDifference - 2 else 0;
      var ratePerSecond := RatePerSecond(rate);
      var basePowerTwo := RayMul(ratePerSecond, ratePerSecond);
      var basePowerThree := RayMul(basePowerTwo, ratePerSecond);
      var secondTerm := TruncDiv(timeDifference * expMinusOne * basePowerTwo, 2);
      var thirdTerm := TruncDiv(timeDifference * expMinusOne * expMinusTwo * basePowerThree, 6);
      RAY + ratePerSecond * timeDifference + secondTerm + thirdTerm
  }

  lemma LinearAtLeastOne(rate: int, current: int, last: int)
    requires rate >= 0 && current >= last
    ensures LinearInterest(rate, current, last) >= RAY
  {
    ProductNonNegative(rate, current - last);
    TruncDivFloor(rate * (current - last), ONE_YEAR);
  }

  /** Linear interest is the rate per year times the elapsed time, rounded down to a unit. */
  lemma LinearTruncates(rate: int, current: int, last: int)
    requires rate >= 0 && current >= last
    ensures var earned := LinearInterest(rate, current, last) - RAY;
            0 <= earned && earned * ONE_YEAR <= rate * (current - last) < earned * ONE_YEAR + ONE_YEAR
  {
    ProductNonNegative(rate, current - last);
    TruncDivFloor(rate * (current - last), ONE_YEAR);
    hide TruncDiv;
  }

  lemma PerSecondFloor(rate: int)
    requires rate >= 0
    ensures 0 <= RatePerSecond(rate) && RatePerSecond(rate) * ONE_YEAR <= rate < (RatePerSecond(rate) + 1) * ONE_YEAR
  {
    TruncDivFloor(rate, ONE_YEAR);
  }

  // ---------- Binomial coefficients ----------

  /** Pascal's triangle. */
  function Choose(n: nat, k: nat): nat {
    if k == 0 then 1
    else if n == 0 then 0
    else Choose(n - 1, k - 1) + Choose(n - 1, k)
  }

  lemma {:induction false} ChooseSmall(n: nat)
    ensures Choose(n, 1) == n
    ensures 2 * Choose(n, 2) == n * (n - 1)
    ensures 6 * Choose(n, 3) == n * (n - 1) * (n - 2)
  {
    if n > 0 {
      var m := n - 1;
      ChooseSmall(m);
      Pascal(m);
      Cubic(m);
    }
  }

  lemma Pascal(m: nat)
    ensures Choose(m, 0) == 1
    ensures forall k: nat :: k > 0 ==> Choose(m + 1, k) == Choose(m, k - 1) + Choose(m, k)
  {
  }

  lemma Cubic(m: int)
    ensures (m + 1) * m == m * (m - 1) + 2 * m
    ensures (m + 1) * m * (m - 1) == m * (m - 1) * (m - 2) + 3 * (m * (m - 1))
  {
    var w := m * (m - 1);
    assert (m + 1) * m * (m - 1) == (m + 1) * w;
  }

  lemma {:induction false} ChooseOne(n: nat)
    ensures Choose(n, 1) == n
  {
    if n > 0 {
      ChooseOne(n - 1);
      Pascal(n - 1);
    }
  }

  lemma {:induction false} Vandermonde2(m: nat, n: nat)
    ensures Choose(m + n, 2) == Choose(m, 2) + m * n + Choose(n, 2)
  {
    if n > 0 {
      var k := n - 1;
      Vandermonde2(m, k);
      ChooseOne(k);
      ChooseOne(m + k);
      Pascal(k);
      Pascal(m + k);
      Distribute(m, k, 1);
    }
  }

  lemma {:induction false} Vandermonde3(m: nat, n: nat)
    ensures Choose(m + n, 3) == Choose(m, 3) + Choose(m, 2) * n + m * Choose(n, 2) + Choose(n, 3)
  {
    if n > 0 {
      var k := n - 1;
      Vandermonde3(m, k);
      Vandermonde2(m, k);
      ChooseOne(k);
      Pascal(k);
      Pascal(m + k);
      hide Choose;
      Vandermonde3Step(m, k, Choose(m, 2), Choose(k, 2));
    }
  }

  lemma Vandermonde3Step(m: int, k: int, c: int, d: int)
    ensures c * (k + 1) + m * (k + d) == c * k + c + m * k + m * d
  {
  }

  lemma Distribute(a: int, b: int, c: int)
    ensures a * (b + c) == a * b + a * c
  {
  }

  // ---------- The closed form ----------

  /** The third-order binomial sum with rounded powers `p2` and `p3` of the rate `r`. */
  function Binomial3(r: int, p2: int, p3: int, t: nat): int {
    RAY + r * t + Choose(t, 2) * p2 + Choose(t, 3) * p3
  }

  function Power2(rate: int): int {
    RayMul(RatePerSecond(rate), RatePerSecond(rate))
  }

  function Power3(rate: int): int {
    RayMul(Power2(rate), RatePerSecond(rate))
  }

  lemma ExactHalf(n: int, c: int, p: int)
    requires n == 2 * c && c >= 0 && p >= 0
    ensures TruncDiv(n * p, 2) == c * p
  {
    assert n * p == 2 * (c * p);
  }

  lemma ExactSixth(n: int, c: int, p: int)
    requires n == 6 * c && c >= 0 && p >= 0
    ensures TruncDiv(n * p, 6) == c * p
  {
    assert n * p == 6 * (c * p);
  }

  lemma PowerBounds(rate: int)
    requires rate >= 0
    ensures var r, p2, p3 := RatePerSecond(rate), Power2(rate), Power3(rate);
            && r >= 0 && p2 >= 0 && p3 >= 0
            && IsRounded(r * r, RAY, p2)
            && IsRounded(p2 * r, RAY, p3)
  {
    hide RayMul, RatePerSecond;
    PerSecondFloor(rate);
    RayMulRounds(RatePerSecond(rate), RatePerSecond(rate));
    RayMulRounds(Power2(rate), RatePerSecond(rate));
  }

  /** Both divisions are exact, and the guard on the third factor agrees with Choose(t, 3). */
  lemma CompoundedClosedForm(rate: int, t: nat, last: int)
    requires rate >= 0
    ensures CompoundedInterest(rate, last + t, last) == Binomial3(RatePerSecond(rate), Power2(rate), Power3(rate), t)
  {
    PowerBounds(rate);
    ChooseSmall(t);
    if t > 0 {
      var m2 := if t > 2 then t - 2 else 0;
      ExactHalf(t * (t - 1), Choose(t, 2), Power2(rate));
      assert t * (t - 1) * m2 == 6 * Choose(t, 3);
      ExactSixth(t * (t - 1) * m2, Choose(t, 3), Power3(rate));
    }
  }

  /** Compounding never falls below simple interest on the truncated per-second rate. */
  lemma CompoundedAtLeastSimple(rate: int, current: int, last: int)
    requires rate >= 0 && current >= last
    ensures CompoundedInterest(rate, current, last) >= RAY + RatePerSecond(rate) * (current - last) >= RAY
  {
    hide CompoundedInterest, RatePerSecond, Power2, Power3, Choose;
    var t: nat := current - last;
    CompoundedClosedForm(rate, t, last);
    PowerBounds(rate);
    ProductNonNegative(Choose(t, 2), Power2(rate));
    ProductNonNegative(Choose(t, 3), Power3(rate));
    ProductNonNegative(RatePerSecond(rate), t);
  }

  lemma CompoundedAtLeastOne(rate: int, current: int, last: int)
    requires rate >= 0 && current >= last
    ensures CompoundedInterest(rate, current, last) >= RAY
  {
    hide CompoundedInterest;
    CompoundedAtLeastSimple(rate, current, last);
  }

  lemma CompoundedZeroRate(current: int, last: int)
    requires current >= last
    ensures CompoundedInterest(0, current, last) == RAY
  {
    CompoundedClosedForm(0, current - last, last);
    var t: nat := current - last;
    assert Power2(0) == 0 && Power3(0) == 0;
    assert Choose(t, 2) * 0 == 0 && Choose(t, 3) * 0 == 0 && 0 * t == 0;
  }

  lemma {:induction false} ChooseMono(n1: nat, n2: nat, k: nat)
    requires n1 <= n2
    ensures Choose(n1, k) <= Choose(n2, k)
    decreases n2
  {
    if n1 < n2 {
      ChooseMono(n1, n2 - 1, k);
    }
  }

  /** Debt never shrinks as time passes. */
  lemma CompoundedMono(rate: int, current1: int, current2: int, last: int)
    requires rate >= 0 && last <= current1 <= current2
    ensures CompoundedInterest(rate, current1, last) <= CompoundedInterest(rate, current2, last)
  {
    hide CompoundedInterest, Power2, Power3, RatePerSecond, IsRounded, Binomial3;
    var t1, t2 := current1 - last, current2 - last;
    CompoundedClosedForm(rate, t1, last);
    CompoundedClosedForm(rate, t2, last);
    PowerBounds(rate);
    BinomialMono(RatePerSecond(rate), Power2(rate), Power3(rate), t1, t2);
  }

  lemma BinomialMono(r: int, p2: int, p3: int, t1: nat, t2: nat)
    requires r >= 0 && p2 >= 0 && p3 >= 0 && t1 <= t2
    ensures Binomial3(r, p2, p3, t1) <= Binomial3(r, p2, p3, t2)
  {
    ChooseMono(t1, t2, 2);
    ChooseMono(t1, t2, 3);
    hide Choose;
    MulMono(t1, t2, r);
    MulMono(Choose(t1, 2), Choose(t2, 2), p2);
    MulMono(Choose(t1, 3), Choose(t2, 3), p3);
  }

  // ---------- Against exact per-second compounding ----------

  const RAY_REAL: real := 1_000_000_000_000_000_000_000_000_000.0

  /** Exact compounding: growth by a factor 1 + x each second. */
  function Growth(x: real, n: nat): real {
    if n == 0 then 1.0 else Growth(x, n - 1) * (1.0 + x)
  }

  /** A product, named so that proofs can treat it as a whole. */
  function Times(a: real, b: real): real {
    a * b
  }

  function Square(x: real): real {
    x * x
  }

  function Cube(x: real): real {
    x * x * x
  }

  /** The cubic 1 + a x + b x^2 + c x^3. */
  function Cubic3(x: real, a: real, b: real, c: real): real {
    1.0 + Times(a, x) + Times(b, Square(x)) + Times(c, Cube(x))
  }

  /** The exact third-order truncation of (1 + x)^n. */
  function Truncated(x: real, n: nat): real {
    Cubic3(x, n as real, Choose(n, 2) as real, Choose(n, 3) as real)
  }

  lemma {:induction false} TruncatedBelowGrowth(x: real, n: nat)
    requires x >= 0.0
    ensures Truncated(x, n) <= Growth(x, n)
  {
    if n == 0 {
      assert Choose(0, 2) == 0 && Choose(0, 3) == 0;
    } else {
      var m := n - 1;
      TruncatedBelowGrowth(x, m);
      TruncatedNext(x, m);
      hide Truncated;
      GrowthStep(Truncated(x, m), Growth(x, m), x);
    }
  }

  lemma TruncatedNext(x: real, m: nat)
    requires x >= 0.0
    ensures Truncated(x, m) * (1.0 + x) >= Truncated(x, m + 1)
  {
    ChooseOne(m);
    Pascal(m);
    hide Choose, Cubic3;
    Cubic3Step(x, m as real, Choose(m, 2) as real, Choose(m, 3) as real,
               (m + 1) as real, Choose(m + 1, 2) as real, Choose(m + 1, 3) as real);
  }

  lemma GrowthStep(a: real, b: real, x: real)
    requires a <= b && x >= 0.0
    ensures a * (1.0 + x) <= b * (1.0 + x)
  {
  }

  /** One second more: the expansion times 1 + x covers Pascal's next row. */
  lemma Cubic3Step(x: real, a: real, b: real, c: real, a1: real, b1: real, c1: real)
    requires x >= 0.0 && c >= 0.0
    requires a1 == a + 1.0 && b1 == a + b && c1 == b + c
    ensures Cubic3(x, a, b, c) * (1.0 + x) >= Cubic3(x, a1, b1, c1)
  {
    var u, v, w := Times(a, x), Times(b, Square(x)), Times(c, Cube(x));
    TimesOnePlus(Cubic3(x, a, b, c), x);
    TimesSum(u, v, w, x);
    RaisePower(a, b, c, x);
    TimesPlus(a, 1.0, x);
    TimesPlus(a, b, Square(x));
    TimesPlus(b, c, Cube(x));
    TimesOne(x);
    hide Times, Square, Cube;
  }

  lemma TimesOnePlus(e: real, x: real)
    ensures e * (1.0 + x) == e + Times(e, x)
  {
  }

  lemma TimesSum(u: real, v: real, w: real, x: real)
    ensures Times(1.0 + u + v + w, x) == x + Times(u, x) + Times(v, x) + Times(w, x)
  {
  }

  lemma TimesPlus(a: real, b: real, x: real)
    ensures Times(a + b, x) == Times(a, x) + Times(b, x)
  {
  }

  lemma TimesOne(x: real)
    ensures Times(1.0, x) == x
  {
  }

  lemma RaisePower(a: real, b: real, c: real, x: real)
    requires x >= 0.0 && c >= 0.0
    ensures Times(Times(a, x), x) == Times(a, Square(x))
    ensures Times(Times(b, Square(x)), x) == Times(b, Cube(x))
    ensures Times(Times(c, Cube(x)), x) >= 0.0
  {
    assert x * x >= 0.0;
    assert Cube(x) == (x * x) * x >= 0.0;
    assert c * Cube(x) >= 0.0;
  }

  /** A real number of rays, in units. */
  function InRays(g: real): real {
    RAY_REAL * g
  }

  lemma InRaysMono(a: real, b: real)
    requires a <= b
    ensures InRays(a) <= InRays(b)
  {
  }

  lemma InRaysTimes(k: real, g: real)
    ensures InRays(Times(k, g)) == Times(k, InRays(g))
  {
  }

  lemma InRaysCubic(x: real, a: real, b: real, c: real)
    ensures InRays(Cubic3(x, a, b, c))
         == RAY_REAL + Times(a, InRays(x)) + Times(b, InRays(Square(x))) + Times(c, InRays(Cube(x)))
  {
    InRaysTimes(a, x);
    InRaysTimes(b, Square(x));
    InRaysTimes(c, Cube(x));
    hide Square, Cube;
    var u, v, w := Times(a, x), Times(b, Square(x)), Times(c, Cube(x));
    assert Cubic3(x, a, b, c) == 1.0 + u + v + w;
    assert RAY_REAL * (1.0 + u + v + w) == RAY_REAL + RAY_REAL * u + RAY_REAL * v + RAY_REAL * w;
  }

  /** The truncated per-second rate as a fraction of a ray. */
  function PerSecond(rate: int): (x: real)
    ensures RatePerSecond(rate) as real == InRays(x)
    ensures rate >= 0 ==> x >= 0.0
    ensures RatePerSecond(rate) <= RAY ==> x <= 1.0
  {
    RatePerSecond(rate) as real / RAY_REAL
  }

  lemma ProductNonNegative(a: int, b: int)
    requires a >= 0 && b >= 0
    ensures a * b >= 0
  {
  }

  lemma ProductAsReal(a: int, b: int)
    ensures (a * b) as real == a as real * b as real
  {
  }

  /** `p` is `e` within `d`. */
  predicate Within(p: real, e: real, d: real) {
    e - d <= p <= e + d
  }

  lemma WithinScaled(k: real, p: real, e: real, d: real)
    requires k >= 0.0 && Within(p, e, d)
    ensures Within(Times(k, p), Times(k, e), Times(k, d))
  {
    ScaleGap(k, p, e - d, e, -d);
    ScaleGap(k, e + d, p, e, d);
    assert e - d == e + (-d);
    hide Times;
  }

  lemma ScaleGap(k: real, upper: real, lower: real, e: real, d: real)
    requires k >= 0.0 && lower <= upper
    ensures Times(k, lower) <= Times(k, upper)
    ensures Times(k, e + d) == Times(k, e) + Times(k, d)
    ensures Times(k, -d) == -Times(k, d)
  {
    assert k * (upper - lower) >= 0.0;
  }

  lemma WithinTrans(p: real, q: real, e: real, d1: real, d2: real)
    requires Within(p, q, d1) && Within(q, e, d2)
    ensures Within(p, e, d1 + d2)
  {
  }

  lemma WithinSum(n: real, n1: real, n2: real, n3: real, e: real, e2: real, e3: real, d2: real, d3: real)
    requires Within(n2, e2, d2) && Within(n3, e3, d3)
    requires n == n1 + n2 + n3 && e == n1 + e2 + e3
    ensures Within(n, e, d2 + d3)
  {
  }

  /** A rounded ray product `p` of `a` and the rate x is within half a unit of `a * x`. */
  lemma HalfUnit(a: int, b: int, p: int, x: real)
    requires IsRounded(a * b, RAY, p)
    requires b as real == InRays(x)
    ensures Within(p as real, Times(a as real, x), 0.5)
  {
    assert (a * b) as real == InRays(Times(a as real, x)) by {
      ProductAsReal(a, b);
      assert a as real * b as real == Times(a as real, InRays(x));
      hide InRays, Times;
      InRaysTimes(a as real, x);
    }
    hide Times;
    var n, e := a * b, Times(a as real, x);
    assert 2.0 * n as real - RAY_REAL <= 2.0 * RAY_REAL * p as real <= 2.0 * n as real + RAY_REAL;
  }

  /** The rounded square of the rate x stays within 1/2 of the exact one. */
  lemma RoundedSquare(r: int, p2: int, x: real)
    requires r as real == InRays(x)
    requires IsRounded(r * r, RAY, p2)
    ensures Within(p2 as real, InRays(Square(x)), 0.5)
  {
    InRaysPowers(x);
    hide InRays, Square, Cube, IsRounded, Within, Times;
    HalfUnit(r, r, p2, x);
  }

  /** Multiplying a power y, rounded to p, by the rate x once more: within (1 + x)/2 of the exact
      product. */
  lemma RoundedNext(r: int, p: int, q: int, x: real, y: real)
    requires x >= 0.0 && r as real == InRays(x)
    requires Within(p as real, y, 0.5)
    requires IsRounded(p * r, RAY, q)
    ensures Within(q as real, Times(x, y), 0.5 + x * 0.5)
  {
    TimesCommutes(p as real, x);
    assert Times(x, 0.5) == x * 0.5;
    hide InRays, IsRounded, Within, Times;
    HalfUnit(p, r, q, x);
    WithinScaled(x, p as real, y, 0.5);
    WithinTrans(q as real, Times(x, p as real), Times(x, y), 0.5, x * 0.5);
  }

  lemma TimesCommutes(a: real, b: real)
    ensures Times(a, b) == Times(b, a)
  {
  }

  lemma InRaysPowers(x: real)
    ensures InRays(Square(x)) == Times(InRays(x), x)
    ensures InRays(Cube(x)) == Times(x, InRays(Square(x)))
  {
    assert x * x * x == x * (x * x);
  }

  /** The dust of the rounded expansion: half a unit per pair of seconds and (1 + x)/2 units
      per triple. */
  function ExpansionDust(x: real, t: nat): real {
    Choose(t, 2) as real * 0.5 + Choose(t, 3) as real * (0.5 + x * 0.5)
  }

  lemma BinomialAsReal(r: int, p2: int, p3: int, t: nat)
    ensures Binomial3(r, p2, p3, t) as real
         == RAY_REAL + Times(t as real, r as real) + Times(Choose(t, 2) as real, p2 as real)
             + Times(Choose(t, 3) as real, p3 as real)
  {
    hide Choose;
    ProductAsReal(t, r);
    ProductAsReal(Choose(t, 2), p2);
    ProductAsReal(Choose(t, 3), p3);
    var a, b, c := r * t, Choose(t, 2) * p2, Choose(t, 3) * p3;
    assert (RAY + a + b + c) as real == RAY_REAL + a as real + b as real + c as real;
  }

  lemma CubicWithin(n: real, x: real, t: real, k2: real, k3: real, p2: real, p3: real, h: real)
    requires k2 >= 0.0 && k3 >= 0.0
    requires Within(p2, InRays(Square(x)), 0.5)
    requires Within(p3, InRays(Cube(x)), h)
    requires n == RAY_REAL + Times(t, InRays(x)) + Times(k2, p2) + Times(k3, p3)
    ensures Within(n, InRays(Cubic3(x, t, k2, k3)), Times(k2, 0.5) + Times(k3, h))
  {
    hide InRays, Square, Cube, Cubic3, Within, Times;
    WithinScaled(k2, p2, InRays(Square(x)), 0.5);
    WithinScaled(k3, p3, InRays(Cube(x)), h);
    InRaysCubic(x, t, k2, k3);
    WithinSum(n, RAY_REAL + Times(t, InRays(x)), Times(k2, p2), Times(k3, p3), InRays(Cubic3(x, t, k2, k3)),
              Times(k2, InRays(Square(x))), Times(k3, InRays(Cube(x))), Times(k2, 0.5), Times(k3, h));
  }

  lemma BinomialTracksExpansion(r: int, p2: int, p3: int, x: real, t: nat)
    requires r as real == InRays(x)
    requires Within(p2 as real, InRays(Square(x)), 0.5)
    requires Within(p3 as real, InRays(Cube(x)), 0.5 + x * 0.5)
    ensures Within(Binomial3(r, p2, p3, t) as real, InRays(Truncated(x, t)), ExpansionDust(x, t))
  {
    var k2, k3, h := Choose(t, 2) as real, Choose(t, 3) as real, 0.5 + x * 0.5;
    assert ExpansionDust(x, t) == Times(k2, 0.5) + Times(k3, h);
    hide Choose, InRays, Within, Cubic3, Binomial3, Square, Cube, Times, ExpansionDust;
    BinomialAsReal(r, p2, p3, t);
    CubicWithin(Binomial3(r, p2, p3, t) as real, x, t as real, k2, k3, p2 as real, p3 as real, h);
  }

  /** The compounded factor is the exact third-order expansion up to the expansion dust. */
  lemma CompoundedTracksExpansion(rate: int, t: nat, last: int)
    requires rate >= 0
    ensures var x := PerSecond(rate);
            Within(CompoundedInterest(rate, last + t, last) as real, InRays(Truncated(x, t)), ExpansionDust(x, t))
  {
    hide CompoundedInterest, Binomial3, Truncated, ExpansionDust, Power2, Power3, RatePerSecond, PerSecond, InRays,
      Within, IsRounded, Square, Cube;
    CompoundedClosedForm(rate, t, last);
    PowerBounds(rate);
    RoundedSquare(RatePerSecond(rate), Power2(rate), PerSecond(rate));
    RoundedNext(RatePerSecond(rate), Power2(rate), Power3(rate), PerSecond(rate), InRays(Square(PerSecond(rate))));
    InRaysPowers(PerSecond(rate));
    BinomialTracksExpansion(RatePerSecond(rate), Power2(rate), Power3(rate), PerSecond(rate), t);
  }

  /** Third-order compounding never exceeds exact per-second compounding except by rounding. */
  lemma CompoundedBelowExact(rate: int, t: nat, last: int)
    requires rate >= 0
    ensures var x, c := PerSecond(rate), CompoundedInterest(rate, last + t, last) as real;
            && c <= InRays(Growth(x, t)) + ExpansionDust(x, t)
            && (RatePerSecond(rate) <= RAY ==>
                c <= InRays(Growth(x, t)) + Choose(t, 2) as real * 0.5 + Choose(t, 3) as real)
  {
    hide CompoundedInterest, ExpansionDust, Choose, Growth, Truncated, PerSecond, RatePerSecond, InRays;
    var x := PerSecond(rate);
    CompoundedTracksExpansion(rate, t, last);
    TruncatedBelowGrowth(x, t);
    InRaysMono(Truncated(x, t), Growth(x, t));
    DustCap(x, t);
  }

  lemma DustCap(x: real, t: nat)
    ensures x <= 1.0 ==> ExpansionDust(x, t) <= Choose(t, 2) as real * 0.5 + Choose(t, 3) as real
  {
    hide Choose;
    var k := Choose(t, 3) as real;
    assert x <= 1.0 ==> k * (0.5 + x * 0.5) <= k;
  }

  // ---------- Splitting an interval ----------

  /** Twice the largest loss from splitting an interval into `t1` and `t2` seconds, before the
      final rounding. */
  function SplitDust(t1: nat, t2: nat): nat {
    t1 * t2 + t1 * Choose(t2, 2) + t2 * Choose(t1, 2)
  }

  /** The product of two compound factors, before rounding, covers the joint factor up to
      dust: only the terms of Vandermonde's identity are kept. */
  lemma SplitProduct(rate: int, t1: nat, t2: nat, last: int)
    requires rate >= 0
    ensures var a := CompoundedInterest(rate, last + t1, last);
            var b := CompoundedInterest(rate, last + t1 + t2, last + t1);
            var c := CompoundedInterest(rate, last + t1 + t2, last);
            2 * (a * b) >= 2 * RAY * c - RAY * SplitDust(t1, t2)
  {
    hide CompoundedInterest, Power2, Power3, RatePerSecond, Choose, Binomial3, SplitDust;
    var r, p2, p3 := RatePerSecond(rate), Power2(rate), Power3(rate);
    CompoundedClosedForm(rate, t1, last);
    CompoundedClosedForm(rate, t2, last + t1);
    CompoundedClosedForm(rate, t1 + t2, last);
    PowerBounds(rate);
    SplitBinomials(r, p2, p3, t1, t2);
  }

  lemma SplitBinomials(r: int, p2: int, p3: int, t1: nat, t2: nat)
    requires r >= 0 && p2 >= 0 && p3 >= 0
    requires IsRounded(r * r, RAY, p2) && IsRounded(p2 * r, RAY, p3)
    ensures 2 * (Binomial3(r, p2, p3, t1) * Binomial3(r, p2, p3, t2))
         >= 2 * RAY * Binomial3(r, p2, p3, t1 + t2) - RAY * SplitDust(t1, t2)
  {
    Vandermonde2(t1, t2);
    Vandermonde3(t1, t2);
    hide Choose;
    var c2, d2, c3, d3 := Choose(t1, 2), Choose(t2, 2), Choose(t1, 3), Choose(t2, 3);
    JointTerms(r, p2, p3, t1, t2, c2, d2, c3, d3);
    CrossTerms(r * t1, c2 * p2, c3 * p3, r * t2, d2 * p2, d3 * p3);
    PaidTerms(r, p2, p3, t1, t2, c2, d2);
  }

  lemma JointTerms(r: int, p2: int, p3: int, t1: int, t2: int, c2: int, d2: int, c3: int, d3: int)
    ensures r * (t1 + t2) + (c2 + t1 * t2 + d2) * p2 + (c3 + c2 * t2 + t1 * d2 + d3) * p3
         == r * t1 + r * t2 + c2 * p2 + d2 * p2 + (t1 * t2) * p2 + c3 * p3 + d3 * p3 + (t1 * d2 + t2 * c2) * p3
  {
    Distribute3(c2, t1 * t2, d2, p2);
    Distribute3(c3 + d3, c2 * t2, t1 * d2, p3);
  }

  lemma Distribute3(a: int, b: int, c: int, p: int)
    ensures (a + b + c) * p == a * p + b * p + c * p
  {
  }

  /** The kept cross terms pay for the extra terms of the joint factor, up to half a ray each. */
  lemma PaidTerms(r: int, p2: int, p3: int, t1: nat, t2: nat, c2: nat, d2: nat)
    requires IsRounded(r * r, RAY, p2) && IsRounded(p2 * r, RAY, p3)
    ensures 2 * ((r * t1) * (r * t2) + (r * t1) * (d2 * p2) + (c2 * p2) * (r * t2))
         >= 2 * RAY * ((t1 * t2) * p2 + (t1 * d2 + t2 * c2) * p3) - RAY * (t1 * t2 + t1 * d2 + t2 * c2)
  {
    hide IsRounded;
    Regroup(r, t1, r, t2);
    Regroup(r, t1, p2, d2);
    Regroup(r, t2, p2, c2);
    SumTimes(t1 * d2, t2 * c2, r * p2);
    RoundedTerm(t1 * t2, r * r, p2);
    RoundedTerm(t1 * d2 + t2 * c2, p2 * r, p3);
  }

  lemma SumTimes(a: int, b: int, c: int)
    ensures a * c + b * c == (a + b) * c
  {
  }

  lemma Regroup(a: int, b: int, c: int, d: int)
    ensures (a * b) * (d * c) == (b * d) * (a * c) == (a * b) * (c * d)
    ensures (d * c) * (a * b) == (b * d) * (a * c)
  {
    assert (a * b) * (c * d) == a * (b * (c * d)) == a * ((b * d) * c);
  }

  lemma CrossTerms(u1: int, u2: int, u3: int, v1: int, v2: int, v3: int)
    requires u1 >= 0 && u2 >= 0 && u3 >= 0 && v1 >= 0 && v2 >= 0 && v3 >= 0
    ensures (RAY + u1 + u2 + u3) * (RAY + v1 + v2 + v3)
         >= RAY * (RAY + u1 + u2 + u3 + v1 + v2 + v3) + u1 * v1 + u1 * v2 + u2 * v1
  {
    var u, v := u1 + u2 + u3, v1 + v2 + v3;
    assert (RAY + u) * (RAY + v) == RAY * (RAY + u + v) + u * v;
    assert u * v == u1 * v + u2 * v + u3 * v;
    assert u1 * v == u1 * v1 + u1 * v2 + u1 * v3;
    assert u2 * v == u2 * v1 + u2 * v2 + u2 * v3;
    assert u1 * v3 >= 0 && u2 * v2 >= 0 && u2 * v3 >= 0 && u3 * v >= 0;
  }

  /** Replacing the exact value e by its rounded ray p costs at most half a ray per copy. */
  lemma RoundedTerm(n: int, e: int, p: int)
    requires n >= 0 && IsRounded(e, RAY, p)
    ensures 2 * (n * e) >= 2 * RAY * (n * p) - RAY * n
  {
    MulMono(2 * RAY * p, 2 * e + RAY, n);
    assert (2 * RAY * p) * n == 2 * RAY * (n * p);
    assert (2 * e + RAY) * n == 2 * (n * e) + RAY * n;
  }

  /** Splitting an accrual interval never loses interest beyond rounding. */
  lemma SplitNeverLoses(rate: int, t1: nat, t2: nat, last: int)
    requires rate >= 0
    ensures 2 * RayMul(CompoundedInterest(rate, last + t1, last), CompoundedInterest(rate, last + t1 + t2, last + t1))
         >= 2 * CompoundedInterest(rate, last + t1 + t2, last) - (SplitDust(t1, t2) + 1)
  {
    hide CompoundedInterest, SplitDust, RayMul;
    SplitProduct(rate, t1, t2, last);
    CompoundedAtLeastSimple(rate, last + t1, last);
    CompoundedAtLeastSimple(rate, last + t1 + t2, last + t1);
    RayMulRounds(CompoundedInterest(rate, last + t1, last), CompoundedInterest(rate, last + t1 + t2, last + t1));
  }

  // ---------- Linear against compounded ----------

  /** Deposit interest is dominated by debt interest at the same rate, up to one unit per second. */
  lemma LinearBelowCompounded(rate: int, t: nat, last: int)
    requires rate >= 0
    ensures LinearInterest(rate, last + t, last) <= CompoundedInterest(rate, last + t, last) + t
    ensures t > 0 ==> LinearInterest(rate, last + t, last) < CompoundedInterest(rate, last + t, last) + t
  {
    CompoundedAtLeastSimple(rate, last + t, last);
    hide CompoundedInterest;
    LinearBelowSimple(rate, RatePerSecond(rate), t);
  }

  lemma LinearBelowSimple(rate: int, r: int, t: nat)
    requires rate >= 0 && 0 <= r && rate < (r + 1) * ONE_YEAR
    ensures TruncDiv(rate * t, ONE_YEAR) <= r * t + t
    ensures t > 0 ==> TruncDiv(rate * t, ONE_YEAR) < r * t + t
  {
    if t > 0 {
      MulStrict(rate, (r + 1) * ONE_YEAR, t);
      assert (r + 1) * ONE_YEAR * t == (r * t + t) * ONE_YEAR;
      assert rate * t >= 0;
    }
  }
}
