/** Go's time.Duration: nanoseconds in 64 bits, and its conversions to and from units. */
module Durations {
  import opened Basics
  import opened Rounding

  type Duration = int64

  const SECOND: nat := 1_000_000_000
  const MINUTE: nat := 60 * SECOND
  const HOUR: nat := 60 * MINUTE

  /** The largest number of seconds whose nanoseconds fit a Duration. */
  const MAX_SECONDS: nat := 9_223_372_036

  /** time.Duration(s) * time.Second, which wraps around. */
  function FromSeconds(s: int64): Duration {
    WrapInt64(s * SECOND)
  }

  lemma WrappedDurations(s: int64)
    requires MAX_SECONDS < s
    ensures s < 18_446_744_073 ==> FromSeconds(s) < 0
  {
  }

  /** Within the range of a Duration nothing wraps; beyond it the nanoseconds agree modulo
      2^64. */
  lemma FromSecondsIs(s: int64)
    ensures -9_223_372_036 <= s <= 9_223_372_036 ==> FromSeconds(s) == s * 1_000_000_000
    ensures (FromSeconds(s) - s * 1_000_000_000) % 0x1_0000_0000_0000_0000 == 0
  {
  }

  /** Go's conversion int(x): the fraction is dropped. */
  function Truncate(x: real): int {
    if 0.0 <= x then x.Floor else -(-x).Floor
  }

  /** Hours(), Minutes() and Seconds() of time.Duration: whole units, plus the
      remaining nanoseconds divided by the unit, each operation rounded. */
  function InUnits(round: real -> real, d: int64, unit: nat): real
    requires 0 < unit
  {
    round(TruncDiv(d, unit) as real + round(TruncMod(d, unit) as real / unit as real))
  }

  /** Seconds() is the number of nanoseconds over 10^9, up to two roundings. */
  lemma SecondsNear(round: real -> real, eps: real, d: int64)
    requires IsAccurate(round, eps) && 0 <= d
    ensures Near(InUnits(round, d, SECOND), d as real / 1_000_000_000.0, 2.0 * eps + eps * eps)
  {
    var whole, q := SecondsParts(round, d);
    RoundedSumNear(round, eps, whole, q);
  }

  lemma SecondsParts(round: real -> real, d: int64) returns (whole: real, q: real)
    requires 0 <= d
    ensures 0.0 <= whole && 0.0 <= q && whole + q == d as real / 1_000_000_000.0
    ensures InUnits(round, d, SECOND) == round(whole + round(q))
  {
    whole := (d / 1_000_000_000) as real;
    q := (d % 1_000_000_000) as real / 1_000_000_000.0;
    assert d == d / 1_000_000_000 * 1_000_000_000 + d % 1_000_000_000;
  }

  lemma RoundedSumNear(round: real -> real, eps: real, whole: real, q: real)
    requires IsAccurate(round, eps) && 0.0 <= whole && 0.0 <= q
    ensures Near(round(whole + round(q)), whole + q, 2.0 * eps + eps * eps)
  {
    assert Near(round(q), q, eps);
    NearShifted(round(q), q, whole, eps);
    SignKept(round, eps, q);
    var sum := whole + round(q);
    assert Near(round(sum), sum, eps);
    NearCompose(round(sum), sum, whole + q, eps, eps);
  }

  lemma NearShifted(y: real, x: real, w: real, eps: real)
    requires 0.0 <= eps && 0.0 <= x && 0.0 <= w && Near(y, x, eps)
    ensures Near(w + y, w + x, eps)
  {
    ProductNonNegative(eps, w);
    SumScaled(w, x, eps);
  }

  /** A remainder below 4095/4096 of the unit is never rounded up to a whole unit. */
  lemma InUnitsTruncates(round: real -> real, d: int64, unit: nat)
    requires IsRounding(round)
    requires 1_000_000_000 <= unit && 0 <= d
    requires 4096 * (d % unit) <= 4095 * unit
    ensures Truncate(InUnits(round, d, unit)) == d / unit
  {
    var whole, rest := d / unit, d % unit;
    assert TruncDiv(d, unit) == whole && TruncMod(d, unit) == rest;
    var q := rest as real / unit as real;
    QuotientBounds(rest, unit);
    assert round(Grid(0)) == 0.0 && round(Grid(4095)) == Grid(4095);
    WholeUnits(d, unit);
    var lo, hi := 4096 * whole, 4096 * whole + 4095;
    assert round(Grid(lo)) == Grid(lo) == whole as real;
    assert round(Grid(hi)) == Grid(hi) == whole as real + Grid(4095);
    assert whole as real <= InUnits(round, d, unit) <= whole as real + Grid(4095);
  }

  /** Below zero the same, toward zero. */
  lemma InUnitsTruncatesBelow(round: real -> real, n: int, unit: int)
    requires IsRounding(round)
    requires 1_000_000_000 <= unit && 0 <= n < TWO_63
    requires 4096 * (n % unit) <= 4095 * unit
    ensures Truncate(InUnits(round, -n, unit)) == -(n / unit)
  {
    var whole, rest := n / unit, n % unit;
    TruncBelow(n, unit);
    QuotientBounds(rest, unit);
    var q := (-rest) as real / unit as real;
    NegatedQuotient(rest, unit);
    assert round(Grid(0)) == 0.0 && round(Grid(-4095)) == Grid(-4095);
    WholeUnits(n, unit);
    var lo, hi := -4096 * whole - 4095, -4096 * whole;
    assert round(Grid(lo)) == Grid(lo) == Grid(-4095) - whole as real;
    assert round(Grid(hi)) == Grid(hi) == -(whole as real);
    assert Grid(-4095) <= round(q) <= 0.0;
    assert Grid(lo) <= (-whole) as real + round(q) <= Grid(hi);
  }

  lemma TruncBelow(n: int, unit: int)
    requires 0 <= n && 0 < unit
    ensures TruncDiv(-n, unit) == -(n / unit) && TruncMod(-n, unit) == -(n % unit)
  {
    assert n == unit * (n / unit) + n % unit;
  }

  lemma NegatedQuotient(rest: int, unit: int)
    requires 0 <= rest && 0 < unit
    ensures (-rest) as real / unit as real == -(rest as real / unit as real)
  {
  }

  lemma QuotientBounds(rest: nat, unit: nat)
    requires 0 < unit && 4096 * rest <= 4095 * unit
    ensures 0.0 <= rest as real / unit as real <= Grid(4095)
  {
    QuotientAtMost(rest as real, unit as real, Grid(4095));
  }

  lemma WholeUnits(d: int64, unit: nat)
    requires 1_000_000_000 <= unit && 0 <= d
    ensures 0 <= d / unit <= 9_223_372_036
  {
    var whole := d / unit;
    assert d == whole * unit + d % unit;
    MulMonotone(1_000_000_000, unit, whole);
  }

  lemma UnitsBounded(round: real -> real, d: int64, unit: nat, most: nat)
    requires IsRounding(round) && 0 < unit && TruncDiv(d, unit) <= most <= 10_000_000_000
    ensures Truncate(InUnits(round, d, unit)) <= most + 1
    ensures d < 0 ==> Truncate(InUnits(round, d, unit)) <= 0
  {
    var whole, rest := TruncDiv(d, unit), TruncMod(d, unit);
    RemainderBounded(d, unit);
    FractionBounded(rest, unit);
    var q := rest as real / unit as real;
    assert round(Grid(0)) == 0.0 && round(Grid(4096)) == 1.0;
    assert round(q) <= 1.0 && (d < 0 ==> round(q) <= 0.0);
    var top := 4096 * (most + 1);
    assert round(Grid(top)) == Grid(top) == most as real + 1.0;
    var x := whole as real + round(q);
    assert x <= Grid(top) && (d < 0 ==> x <= Grid(0));
    assert round(x) <= Grid(top) && (d < 0 ==> round(x) <= 0.0);
  }

  lemma RemainderBounded(d: int64, unit: nat)
    requires 0 < unit
    ensures TruncMod(d, unit) < unit
    ensures d < 0 ==> TruncDiv(d, unit) <= 0 && TruncMod(d, unit) <= 0
  {
    if 0 <= d {
      assert d == unit * (d / unit) + d % unit;
    } else {
      var n: int := 0 - d as int;
      assert n == unit * (n / unit) + n % unit;
    }
  }

  lemma FractionBounded(rest: int, unit: nat)
    requires 0 < unit && rest < unit
    ensures rest as real / unit as real <= 1.0
    ensures rest <= 0 ==> rest as real / unit as real <= 0.0
  {
    var x, u := rest as real, unit as real;
    var q := x / u;
    assert q * u == x;
    if 0 <= rest {
      QuotientAtMost(x, u, 1.0);
    } else {
      PositiveProduct(q, u);
    }
  }
}
