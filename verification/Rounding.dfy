/** Binary64 arithmetic as far as the agent's formatters depend on it
    (section 4.3.1 of IEEE 754-2019, round to nearest, ties to even). */
module Rounding {
  import opened Basics

  const TWO_52: nat := 0x10_0000_0000_0000
  const TWO_53: nat := 0x20_0000_0000_0000

  /** n / d rounded to the nearest integer, a tie going to the even neighbour. */
  function RoundHalfEven(n: nat, d: nat): nat
    requires 0 < d
  {
    var q, r := n / d, n % d;
    if 2 * r < d || (2 * r == d && q % 2 == 0) then q else q + 1
  }

  lemma RoundHalfEvenNearest(n: nat, d: nat)
    requires 0 < d
    ensures 2 * Abs(RoundHalfEven(n, d) * d - n) <= d
  {
    var q, r := n / d, n % d;
    assert n == q * d + r;
    assert (q + 1) * d == q * d + d;
  }

  /** A tie goes to the even neighbour. */
  lemma RoundHalfEvenTies(n: nat, d: nat)
    requires 0 < d && 2 * (n % d) == d
    ensures RoundHalfEven(n, d) % 2 == 0
  {
  }

  lemma RoundHalfEvenMonotone(m: nat, n: nat, d: nat)
    requires 0 < d && m <= n
    ensures RoundHalfEven(m, d) <= RoundHalfEven(n, d)
  {
    var p, q := m / d, n / d;
    assert m == p * d + m % d && n == q * d + n % d;
    StepsApart(q, p, d);
  }

  /** Multiples of d that differ are at least d apart. */
  lemma StepsApart(x: nat, y: nat, d: nat)
    ensures x < y ==> x * d + d <= y * d
  {
    if x < y {
      MulMonotone(x + 1, y, d);
      assert (x + 1) * d == x * d + d;
    }
  }

  lemma RoundHalfEvenExact(k: nat, d: nat)
    requires 0 < d
    ensures RoundHalfEven(k * d, d) == k
  {
    MultipleDivMod(k, d);
  }

  lemma MultipleDivMod(k: nat, d: nat)
    requires 0 < d
    ensures k * d / d == k && k * d % d == 0
  {
    var q, r := k * d / d, k * d % d;
    assert k * d == q * d + r;
    StepsApart(q, k, d);
    StepsApart(k, q, d);
  }

  /** The spacing of binary64 numbers just above b. */
  function Ulp(b: nat): (u: nat)
    ensures 0 < u
    ensures b < TWO_53 ==> u == 1
    ensures TWO_53 <= b ==> TWO_52 * u <= b < TWO_53 * u
  {
    if b < TWO_53 then 1 else 2 * Ulp(b / 2)
  }

  /** float64(b) for an unsigned integer; the result is again an integer. */
  function ToFloat64(b: nat): nat {
    RoundHalfEven(b, Ulp(b)) * Ulp(b)
  }

  lemma ToFloat64Exact(b: nat)
    requires b < TWO_53
    ensures ToFloat64(b) == b
  {
  }

  lemma ToFloat64Nearest(b: nat)
    ensures 2 * Abs(ToFloat64(b) - b) <= Ulp(b)
  {
    RoundHalfEvenNearest(b, Ulp(b));
  }

  /** The spacing is a power of two. */
  lemma {:induction false} UlpIsPower(b: nat) returns (k: nat)
    ensures Ulp(b) == Doubled(1, k)
  {
    if b < TWO_53 {
      k := 0;
    } else {
      var j := UlpIsPower(b / 2);
      k := j + 1;
    }
  }

  /** The result is a whole number of spacings, and of two that are equally near the one
      with the even significand. */
  lemma ToFloat64Ties(b: nat)
    ensures ToFloat64(b) % Ulp(b) == 0
    ensures 2 * (b % Ulp(b)) == Ulp(b) ==> ToFloat64(b) / Ulp(b) % 2 == 0
  {
    MultipleDivMod(RoundHalfEven(b, Ulp(b)), Ulp(b));
    if 2 * (b % Ulp(b)) == Ulp(b) {
      RoundHalfEvenTies(b, Ulp(b));
    }
  }

  /** Between two arguments the spacing is the same or has at least doubled. */
  lemma {:induction false} UlpSteps(a: nat, b: nat)
    requires a <= b
    ensures Ulp(a) == Ulp(b) || 2 * Ulp(a) <= Ulp(b)
  {
    if TWO_53 <= a {
      UlpSteps(a / 2, b / 2);
    }
  }

  lemma ToFloat64Monotone(a: nat, b: nat)
    requires a <= b
    ensures ToFloat64(a) <= ToFloat64(b)
  {
    UlpSteps(a, b);
    var u, v := Ulp(a), Ulp(b);
    if u == v {
      RoundHalfEvenMonotone(a, b, u);
      MulMonotone(RoundHalfEven(a, u), RoundHalfEven(b, u), u);
    } else {
      // a rounds to at most the top of its binade, b to at least the bottom of its own.
      RoundHalfEvenMonotone(a, TWO_53 * u, u);
      RoundHalfEvenExact(TWO_53, u);
      MulMonotone(RoundHalfEven(a, u), TWO_53, u);
      RoundHalfEvenMonotone(TWO_52 * v, b, v);
      RoundHalfEvenExact(TWO_52, v);
      MulMonotone(TWO_52, RoundHalfEven(b, v), v);
    }
  }

  lemma MulMonotone(x: nat, y: nat, u: nat)
    requires x <= y
    ensures x * u <= y * u
  {
  }

  /** Doubling a number that is exact in binary64 gives another one. */
  lemma ToFloat64Double(b: nat)
    requires ToFloat64(b) == b
    ensures ToFloat64(2 * b) == 2 * b
  {
    if TWO_52 <= b {
      var u := Ulp(b);
      UlpDouble(b);
      DoubleMultiple(RoundHalfEven(b, u), u);
    }
  }

  lemma UlpDouble(b: nat)
    requires TWO_52 <= b
    ensures Ulp(2 * b) == 2 * Ulp(b)
  {
    assert 2 * b / 2 == b;
  }

  lemma DoubleMultiple(k: nat, u: nat)
    requires 0 < u
    ensures RoundHalfEven(2 * (k * u), 2 * u) * (2 * u) == 2 * (k * u)
  {
    assert 2 * (k * u) == k * (2 * u);
    RoundHalfEvenExact(k, 2 * u);
  }

  /** b doubled k times. */
  function Doubled(b: nat, k: nat): nat {
    if k == 0 then b else 2 * Doubled(b, k - 1)
  }

  lemma {:induction false} ToFloat64Doubled(b: nat, k: nat)
    requires ToFloat64(b) == b
    ensures ToFloat64(Doubled(b, k)) == Doubled(b, k)
  {
    if k != 0 {
      ToFloat64Doubled(b, k - 1);
      ToFloat64Double(Doubled(b, k - 1));
    }
  }

  lemma {:induction false} UlpAtMost(b: nat, k: nat)
    requires b < Doubled(TWO_53, k)
    ensures Ulp(b) <= Doubled(1, k)
  {
    if k != 0 {
      DoubledPositive(k);
      if TWO_53 <= b {
        UlpAtMost(b / 2, k - 1);
      }
    }
  }

  lemma {:induction false} DoubledPositive(k: nat)
    ensures 0 < Doubled(1, k)
  {
    if k != 0 {
      DoubledPositive(k - 1);
    }
  }

  // ---- real-valued rounding ----

  /** A binary64 rounding of reals, in any of the standard's rounding modes: order
      preserving, and the identity on the multiples of 1/4096 up to 2^53 / 4096. */
  ghost predicate IsRounding(round: real -> real) {
    && (forall x: real, y: real :: x <= y ==> round(x) <= round(y))
    && (forall k: int :: 0 - TWO_53 as int <= k <= TWO_53 ==> round(Grid(k)) == Grid(k))
  }

  function Grid(k: int): real {
    k as real / 4096.0
  }

  function AbsReal(x: real): (r: real)
    ensures 0.0 <= r
  {
    if x < 0.0 then -x else x
  }

  /** y is within the fraction eps of x. */
  predicate Near(y: real, x: real, eps: real) {
    Within(y, x, eps * AbsReal(x))
  }

  predicate Within(y: real, x: real, loss: real) {
    x - loss <= y <= x + loss
  }

  /** A rounding with relative error at most eps: 2^-53 for binary64 rounding to nearest,
      2^-52 in the other modes, zero for exact arithmetic. */
  ghost predicate IsAccurate(round: real -> real, eps: real) {
    && 0.0 <= eps <= 0.0625
    && forall x: real :: Near(round(x), x, eps)
  }

  /** Rounding does not change the sign. */
  lemma SignKept(round: real -> real, eps: real, x: real)
    requires IsAccurate(round, eps)
    ensures 0.0 < x ==> 0.0 < round(x)
    ensures 0.0 <= x ==> 0.0 <= round(x)
    ensures x <= 0.0 ==> round(x) <= 0.0
  {
    NearKeepsSign(round(x), x, eps);
  }

  lemma NearKeepsSign(y: real, x: real, eps: real)
    requires 0.0 <= eps < 1.0 && Near(y, x, eps)
    ensures 0.0 < x ==> 0.0 < y
    ensures 0.0 <= x ==> 0.0 <= y
    ensures x <= 0.0 ==> y <= 0.0
  {
    var size := AbsReal(x);
    var loss := ProperFraction(eps, size);
    SmallLossKeepsSign(y, x, size, loss);
  }

  lemma ProperFraction(eps: real, size: real) returns (loss: real)
    requires 0.0 <= eps < 1.0 && 0.0 <= size
    ensures loss == eps * size && 0.0 <= loss <= size
    ensures 0.0 < size ==> loss < size
  {
    loss := eps * size;
    ProductNonNegative(eps, size);
    ProductNonNegative(1.0 - eps, size);
    PositiveProduct(1.0 - eps, size);
    SumScaled(1.0 - eps, eps, size);
  }

  lemma SmallLossKeepsSign(y: real, x: real, size: real, loss: real)
    requires size == AbsReal(x) && Within(y, x, loss)
    requires 0.0 <= loss <= size && (0.0 < size ==> loss < size)
    ensures 0.0 < x ==> 0.0 < y
    ensures 0.0 <= x ==> 0.0 <= y
    ensures x <= 0.0 ==> y <= 0.0
  {
  }

  // ---- errors of several roundings ----

  lemma ProductAssociative(x: real, y: real, z: real)
    ensures x * y * z == x * (y * z)
  {
  }

  lemma ProductNonNegative(x: real, e: real)
    requires 0.0 <= x && 0.0 <= e
    ensures 0.0 <= x * e
  {
  }

  lemma ScaledOrder(x: real, y: real, e: real)
    requires x <= y && 0.0 <= e
    ensures x * e <= y * e
  {
  }

  lemma SumScaled(x: real, y: real, e: real)
    ensures (x + y) * e == x * e + y * e
  {
  }

  lemma CancelFactor(x: real, y: real, f: real)
    requires 0.0 < f && x * f <= y * f
    ensures x <= y
  {
    if y < x {
      PositiveProduct(x - y, f);
      SumScaled(x - y, y, f);
    }
  }

  lemma NearScaled(y: real, x: real, e: real, k: real)
    requires Near(y, x, k) && 0.0 < e && 0.0 <= x
    ensures Near(y * e, x * e, k)
  {
    var loss := k * x;
    ScaledOrder(x - loss, y, e);
    ScaledOrder(y, x + loss, e);
    SumScaled(x - loss, loss, e);
    SumScaled(x, loss, e);
    ProductAssociative(k, x, e);
    ProductNonNegative(x, e);
  }

  lemma NearWeaken(y: real, x: real, k: real, more: real)
    requires Near(y, x, k) && k <= more
    ensures Near(y, x, more)
  {
    ScaledOrder(k, more, AbsReal(x));
  }

  /** z is near y, and y near x. */
  lemma NearCompose(z: real, y: real, x: real, a: real, b: real)
    requires 0.0 <= a && 0.0 <= b && 0.0 <= x && 0.0 <= y && Near(z, y, a) && Near(y, x, b)
    ensures Near(z, x, a + b + a * b)
  {
    var loss := b * x;
    ScaledOrder(y, x + loss, a);
    SumScaled(x, loss, a);
    ProductAssociative(a, b, x);
    SumScaled(a, b, x);
    SumScaled(a + b, a * b, x);
    TwoLosses(z, y, x, loss, a * y, a * x + a * loss);
  }

  lemma TwoLosses(z: real, y: real, x: real, first: real, second: real, most: real)
    requires Within(z, y, second) && Within(y, x, first) && second <= most
    ensures Within(z, x, first + most)
  {
  }

  /** y / e against x / f. */
  lemma NearQuotient(y: real, x: real, e: real, f: real, a: real, b: real, c: real)
    requires 0.0 <= a && 0.0 <= b < 1.0 && a + b <= c * (1.0 - b)
    requires 0.0 <= x && 0.0 <= y && 0.0 < e && 0.0 < f && Near(y, x, a) && Near(e, f, b)
    ensures Near(y / e, x / f, c)
  {
    var q := Quotient(y, e);
    var p := Quotient(x, f);
    NearFactor(q, y, e, p, x, f, a, b, c);
  }

  lemma Quotient(y: real, e: real) returns (q: real)
    requires 0.0 <= y && 0.0 < e
    ensures q == y / e && q * e == y && 0.0 <= q
  {
    q := y / e;
  }

  lemma NearFactor(q: real, y: real, e: real, p: real, x: real, f: real, a: real, b: real, c: real)
    requires 0.0 <= a && 0.0 <= b < 1.0 && a + b <= c * (1.0 - b)
    requires 0.0 <= q && q * e == y && 0.0 <= p && p * f == x && 0.0 <= x && 0.0 < f
    requires Near(y, x, a) && Near(e, f, b)
    ensures Near(q, p, c)
  {
    QuotientAbove(q, p, e, f, a, b);
    QuotientBelow(q, p, e, f, a, b);
    QuotientLoss(q, p, a, b, c);
  }

  lemma QuotientAbove(q: real, p: real, e: real, f: real, a: real, b: real)
    requires 0.0 <= q && 0.0 <= p && 0.0 < f && 0.0 <= p * f
    requires q * e <= p * f + a * (p * f) && f - b * f <= e
    ensures q * (1.0 - b) <= p * (1.0 + a)
  {
    ScaledOrder(f - b * f, e, q);
    Regroup(q, 1.0 - b, f);
    Regroup(p, 1.0 + a, f);
    CancelFactor(q * (1.0 - b), p * (1.0 + a), f);
  }

  lemma QuotientBelow(q: real, p: real, e: real, f: real, a: real, b: real)
    requires 0.0 <= q && 0.0 <= p && 0.0 < f && 0.0 <= p * f
    requires p * f - a * (p * f) <= q * e && e <= f + b * f
    ensures p * (1.0 - a) <= q * (1.0 + b)
  {
    ScaledOrder(e, f + b * f, q);
    Regroup(q, 1.0 + b, f);
    Regroup(p, 1.0 - a, f);
    CancelFactor(p * (1.0 - a), q * (1.0 + b), f);
  }

  lemma Regroup(q: real, k: real, f: real)
    ensures q * k * f == (f + (k - 1.0) * f) * q
    ensures q * k * f == q * f + (k - 1.0) * (q * f)
  {
  }

  lemma QuotientLoss(q: real, p: real, a: real, b: real, c: real)
    requires 0.0 <= p && 0.0 <= a && 0.0 <= b < 1.0 && a + b <= c * (1.0 - b)
    requires q * (1.0 - b) <= p * (1.0 + a) && p * (1.0 - a) <= q * (1.0 + b)
    ensures Near(q, p, c)
  {
    NonNegativeFactor(c, 1.0 - b);
    ProductNonNegative(c, b);
    SumScaled(1.0, c, 1.0 - b);
    CancelAcross(q, p, 1.0 - b, 1.0 + a, 1.0 + c);
    assert c * (1.0 - b) == c - c * b;
    assert (1.0 - c) * (1.0 + b) == 1.0 + b - c - c * b;
    CancelBelow(q, p, 1.0 + b, 1.0 - a, 1.0 - c);
    SumScaled(1.0, c, p);
    SumScaled(1.0, -c, p);
  }

  lemma CancelAcross(q: real, p: real, s: real, n: real, u: real)
    requires 0.0 <= p && 0.0 < s && q * s <= p * n && n <= u * s
    ensures q <= u * p
  {
    ScaledOrder(n, u * s, p);
    Rotate(u, s, p);
    CancelFactor(q, u * p, s);
  }

  lemma CancelBelow(q: real, p: real, s: real, n: real, u: real)
    requires 0.0 <= p && 0.0 < s && p * n <= q * s && u * s <= n
    ensures u * p <= q
  {
    ScaledOrder(u * s, n, p);
    Rotate(u, s, p);
    CancelFactor(u * p, q, s);
  }

  lemma Rotate(u: real, s: real, p: real)
    ensures u * s * p == u * p * s
  {
  }

  lemma NonNegativeFactor(c: real, f: real)
    requires 0.0 < f && 0.0 <= c * f
    ensures 0.0 <= c
  {
    CancelFactor(0.0, c, f);
  }

  /** z is near y, y near x, and the errors together are at most c. */
  lemma NearThrough(z: real, y: real, x: real, a: real, b: real, c: real)
    requires 0.0 <= a && 0.0 <= b && a + b + a * b <= c
    requires 0.0 <= x && 0.0 <= y && Near(z, y, a) && Near(y, x, b)
    ensures Near(z, x, c)
  {
    NearCompose(z, y, x, a, b);
    NearWeaken(z, x, a + b + a * b, c);
  }

  lemma SmallSquare(eps: real)
    requires 0.0 <= eps <= 0.0625
    ensures 0.0 <= eps * eps <= eps / 16.0
  {
    ScaledOrder(eps, 0.0625, eps);
  }

  // ---- a rounded rate ----

  /** The error b of a time, c of a quotient by it, and k of the rounded quotient. */
  lemma RateBudget(eps: real) returns (b: real, c: real, k: real)
    requires 0.0 <= eps <= 0.0625
    ensures b == 2.0625 * eps && k == 5.0 * eps
    ensures 0.0 <= b < 1.0 && 0.0 <= c && eps + b <= c * (1.0 - b) && eps + c + eps * c <= k
  {
    b, c, k := 2.0625 * eps, 3.75 * eps, 5.0 * eps;
    SmallSquare(eps);
    assert eps * (1.0 - b) == eps - 2.0625 * (eps * eps);
    assert c * (1.0 - b) == 3.75 * (eps * (1.0 - b));
    var third := LastRounding(eps, c);
  }

  lemma LastRounding(eps: real, c: real) returns (more: real)
    requires 0.0 <= c <= 3.75 * eps && 0.0 <= eps <= 0.0625
    ensures more == eps * c && eps + c + more <= 5.0 * eps
  {
    more := SmallPart(eps, c);
    assert more <= 0.25 * eps && eps + c <= 4.75 * eps;
  }

  lemma SmallPart(eps: real, c: real) returns (more: real)
    requires 0.0 <= c && 0.0 <= eps <= 0.0625
    ensures more == eps * c && more <= 0.0625 * c
  {
    more := eps * c;
    ScaledOrder(eps, 0.0625, c);
  }

  /** The error b of a time in milliseconds, and c of a quotient by it. */
  lemma ShareBudget(eps: real) returns (b: real, c: real)
    requires 0.0 <= eps <= 0.0625
    ensures b == 3.25 * eps && c == 5.5 * eps
    ensures 0.0 <= b < 1.0 && 0.0 <= c && eps + b <= c * (1.0 - b)
  {
    b, c := 3.25 * eps, 5.5 * eps;
    SmallSquare(eps);
    assert eps * (1.0 - b) == eps - 3.25 * (eps * eps);
    assert c * (1.0 - b) == 5.5 * (eps * (1.0 - b));
  }

  lemma ShareNear(round: real -> real, eps: real, x: real, e: real, t: real, b: real, c: real)
    returns (q: real, p: real)
    requires IsAccurate(round, eps) && 0.0 <= x && 0.0 < e && 0.0 < t && Near(e, t, b)
    requires 0.0 <= b < 1.0 && eps + b <= c * (1.0 - b)
    ensures q == round(x) / e && p == x / t && 0.0 <= q && 0.0 <= p
    ensures Near(q, p, c)
  {
    SignKept(round, eps, x);
    assert Near(round(x), x, eps);
    q := Quotient(round(x), e);
    p := Quotient(x, t);
    NearFactor(q, round(x), e, p, x, t, eps, b, c);
  }

  lemma RoundedNear(round: real -> real, eps: real, q: real, p: real, k: real, more: real)
    requires IsAccurate(round, eps) && 0.0 <= q && 0.0 <= p && 0.0 <= k && Near(q, p, k)
    requires eps + k + eps * k <= more
    ensures Near(round(q), p, more)
  {
    assert Near(round(q), q, eps);
    NearThrough(round(q), q, p, eps, k, more);
  }

  lemma RoundedShareNear(
    round: real -> real, eps: real, x: real, e: real, t: real, b: real, c: real, k: real)
    requires IsAccurate(round, eps) && 0.0 <= x && 0.0 < e && 0.0 < t && Near(e, t, b)
    requires 0.0 <= b < 1.0 && 0.0 <= c && eps + b <= c * (1.0 - b) && eps + c + eps * c <= k
    ensures Near(round(round(x) / e), x / t, k)
  {
    var q, p := ShareNear(round, eps, x, e, t, b, c);
    RoundedNear(round, eps, q, p, c, k);
  }

  /** The rounded quotient of a rounded number by a time e that is near t. */
  lemma RoundedQuotientNear(round: real -> real, eps: real, x: real, e: real, t: real)
    requires IsAccurate(round, eps) && 0.0 <= x && 0.0 < e && 0.0 < t && Near(e, t, 2.0625 * eps)
    ensures Near(round(round(x) / e), x / t, 5.0 * eps)
  {
    var b, c, k := RateBudget(eps);
    RoundedShareNear(round, eps, x, e, t, b, c, k);
  }

  /** Multiplied by the time t, it gives the number back. */
  lemma RoundedQuotientTimes(round: real -> real, eps: real, x: real, e: real, t: real)
    requires IsAccurate(round, eps) && 0.0 <= x && 0.0 < e && 0.0 < t && Near(e, t, 2.0625 * eps)
    ensures Near(round(round(x) / e) * t, x, 5.0 * eps)
  {
    RoundedQuotientNear(round, eps, x, e, t);
    TimesAgain(round(round(x) / e), x, t, 5.0 * eps);
  }

  lemma TimesAgain(y: real, x: real, t: real, k: real)
    requires 0.0 <= x && 0.0 < t && Near(y, x / t, k)
    ensures Near(y * t, x, k)
  {
    var p := Quotient(x, t);
    NearScaled(y, p, t, k);
  }

  lemma QuotientAtMost(x: real, u: real, c: real)
    requires 0.0 <= x && 0.0 < u && x <= c * u
    ensures 0.0 <= x / u <= c
  {
    var q := x / u;
    assert q * u == x;
    PositiveProduct(q - c, u);
    PositiveProduct(-q, u);
  }

  lemma PositiveProduct(x: real, y: real)
    ensures 0.0 < x && 0.0 < y ==> 0.0 < x * y
  {
  }
}
