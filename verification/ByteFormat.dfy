/** The command-line tool's byte counts: formatBytes, and a reader of what it prints. */
module ByteFormat {
  import opened Basics
  import opened Rounding
  import opened Text

  const UNIT: nat := 1024
  const SUFFIXES: string := "KMGTPE"

  function UnitPower(k: nat): (p: nat)
    ensures 0 < p
  {
    if k == 0 then 1 else UNIT * UnitPower(k - 1)
  }

  lemma {:induction false} UnitPowerMonotone(j: nat, k: nat)
    requires j <= k
    ensures UnitPower(j) <= UnitPower(k)
  {
    if j < k {
      UnitPowerMonotone(j, k - 1);
    }
  }

  lemma {:induction false} UnitPowersFitBinary64(m: nat, k: nat)
    requires ToFloat64(m) == m
    ensures ToFloat64(m * UnitPower(k)) == m * UnitPower(k)
  {
    if k != 0 {
      var p := m * UnitPower(k - 1);
      UnitPowersFitBinary64(m, k - 1);
      ToFloat64Doubled(p, 10);
      TenDoublings(p);
      NextPower(m, k);
    }
  }

  lemma NextPower(m: nat, k: nat)
    requires 0 < k
    ensures m * UnitPower(k) == UNIT * (m * UnitPower(k - 1))
  {
  }

  lemma TenDoublings(b: nat)
    ensures Doubled(b, 10) == UNIT * b
  {
    calc {
      Doubled(b, 10);
      4 * Doubled(b, 8);
      16 * Doubled(b, 6);
      64 * Doubled(b, 4);
      256 * Doubled(b, 2);
      512 * Doubled(b, 1);
      UNIT * Doubled(b, 0);
    }
  }

  /** Index of the largest unit that does not exceed b. */
  function UnitIndex(b: uint64): (exp: nat)
    requires UNIT <= b
    ensures UnitPower(exp + 1) <= b < UnitPower(exp + 2)
    ensures exp < |SUFFIXES|
  {
    if b < 1_048_576 then
      assert UnitPower(1) == 1024 && UnitPower(2) == 1_048_576;
      0
    else
      var exp := UnitIndex(b / UNIT);
      assert UnitPower(exp + 3) == UNIT * UnitPower(exp + 2);
      assert UnitPower(exp + 2) == UNIT * UnitPower(exp + 1);
      UnitIndexBound(exp + 1, b);
      1 + exp
  }

  lemma UnitIndexBound(exp: nat, b: uint64)
    requires UnitPower(exp + 1) <= b
    ensures exp < |SUFFIXES|
  {
    if 6 <= exp {
      UnitPowerMonotone(7, exp + 1);
      UnitPower7();
    }
  }

  lemma UnitPower7()
    ensures UnitPower(7) == 0x40_0000_0000_0000_0000
  {
    assert UnitPower(2) == 0x10_0000;
    assert UnitPower(4) == 0x100_0000_0000;
    assert UnitPower(6) == 0x1000_0000_0000_0000;
  }

  lemma UnitIndexUnique(b: uint64, exp: nat)
    requires UNIT <= b && UnitPower(exp + 1) <= b < UnitPower(exp + 2)
    ensures exp == UnitIndex(b)
  {
    var i := UnitIndex(b);
    if i < exp {
      UnitPowerMonotone(i + 2, exp + 1);
    } else if exp < i {
      UnitPowerMonotone(exp + 2, i + 1);
    }
  }

  /** The printed number, in tenths of the unit: %.1f applied to float64(b) / div.
      The division is exact because div is a power of two. */
  function Tenths(b: uint64, div: nat): nat
    requires 0 < div
  {
    RoundHalfEven(10 * ToFloat64(b), div)
  }

  function OneDecimal(tenths: nat): string {
    Decimal(tenths / 10) + "." + [DigitChar(tenths % 10)]
  }

  function BytesText(b: uint64): string {
    if b < UNIT then
      Decimal(b) + " B"
    else
      var exp := UnitIndex(b);
      OneDecimal(Tenths(b, UnitPower(exp + 1))) + " " + [SUFFIXES[exp]] + "B"
  }

  /** The scaling loop: div ends as the largest power of 1024 not above b, no product
      leaves 64 bits (div is a uint64 throughout), and exp indexes the unit letters. */
  method ScaleToUnit(b: uint64) returns (div: uint64, exp: nat)
    requires UNIT <= b
    ensures div == UnitPower(exp + 1)
    ensures div <= b < UNIT * div
    ensures exp < |SUFFIXES|
  {
    div, exp := UNIT, 0;
    var n := b / UNIT;
    while UNIT <= n
      invariant div == UnitPower(exp + 1)
      invariant 0 < div && n == b / div && div <= b
      decreases n
    {
      ScaleOnce(b, div);
      div := div * UNIT;
      exp := exp + 1;
      n := n / UNIT;
    }
    assert b == n * div + b % div;
    MulMonotone(n + 1, UNIT, div);
    assert (n + 1) * div == n * div + div;
    UnitIndexBound(exp, b);
  }

  lemma ScaleOnce(b: nat, div: nat)
    requires 0 < div && UNIT <= b / div
    ensures UNIT * div <= b
    ensures b / (div * UNIT) == b / div / UNIT
  {
    var n := b / div;
    assert b == n * div + b % div;
    MulMonotone(UNIT, n, div);
    var k, j := n / UNIT, n % UNIT;
    assert n * div == k * (div * UNIT) + j * div;
    var rest := j * div + b % div;
    assert b == k * (div * UNIT) + rest;
    MulMonotone(j + 1, UNIT, div);
    assert (j + 1) * div == j * div + div;
    DivisionUnique(b, div * UNIT, k, rest);
  }

  lemma DivisionUnique(n: nat, d: nat, q: nat, r: nat)
    requires 0 < d && n == q * d + r && r < d
    ensures n / d == q
  {
    var p := n / d;
    assert n == p * d + n % d;
    StepsApart(p, q, d);
    StepsApart(q, p, d);
  }

  method FormatBytes(b: uint64) returns (text: string)
    ensures text == BytesText(b)
  {
    if b < UNIT {
      return Decimal(b) + " B";
    }
    var div, exp := ScaleToUnit(b);
    UnitIndexUnique(b, exp);
    return OneDecimal(Tenths(b, div)) + " " + [SUFFIXES[exp]] + "B";
  }

  // ---- reading the text back ----

  /** Position of a unit letter. */
  function SuffixIndex(c: char): Option<nat> {
    if c == 'K' then Some(0)
    else if c == 'M' then Some(1)
    else if c == 'G' then Some(2)
    else if c == 'T' then Some(3)
    else if c == 'P' then Some(4)
    else if c == 'E' then Some(5)
    else None
  }

  /** The value of a printed byte count, in tenths of a byte. */
  function ReadBytes(text: string): Option<nat> {
    match ReadNumber(text)
    case None => None
    case Some((n, rest)) =>
      if rest == " B" then Some(10 * n)
      else if |rest| == 5 && rest[0] == '.' && IsDigit(rest[1]) && rest[2] == ' ' && rest[4] == 'B'
              && SuffixIndex(rest[3]).Some? then
        Some((10 * n + DigitValue(rest[1])) * UnitPower(SuffixIndex(rest[3]).value + 1))
      else None
  }

  /** The value the text stands for, in tenths of a byte. */
  function PrintedTenths(b: uint64): nat {
    if b < UNIT then 10 * b
    else var div := UnitPower(UnitIndex(b) + 1); Tenths(b, div) * div
  }

  lemma ReadBytesText(b: uint64)
    ensures ReadBytes(BytesText(b)) == Some(PrintedTenths(b))
  {
    if b < UNIT {
      ReadNumberOfDecimal(b, " B");
    } else {
      var exp := UnitIndex(b);
      var t := Tenths(b, UnitPower(exp + 1));
      var rest := "." + [DigitChar(t % 10)] + " " + [SUFFIXES[exp]] + "B";
      assert BytesText(b) == Decimal(t / 10) + rest;
      ReadNumberOfDecimal(t / 10, rest);
      assert |rest| == 5 && rest[3] == SUFFIXES[exp];
      assert SuffixIndex(SUFFIXES[exp]) == Some(exp);
    }
  }

  /** What is printed for b lies between one and 1024 of its units. */
  lemma PrintedInUnit(b: uint64)
    requires UNIT <= b
    ensures 10 * UnitPower(UnitIndex(b) + 1) <= PrintedTenths(b) <= 10 * UnitPower(UnitIndex(b) + 2)
  {
    var exp := UnitIndex(b);
    var div := UnitPower(exp + 1);
    var f := ToFloat64(b);
    UnitPowersFitBinary64(1, exp + 1);
    UnitPowersFitBinary64(1, exp + 2);
    ToFloat64Monotone(div, b);
    ToFloat64Monotone(b, UNIT * div);
    RoundHalfEvenMonotone(10 * div, 10 * f, div);
    RoundHalfEvenMonotone(10 * f, 10240 * div, div);
    RoundHalfEvenExact(10, div);
    RoundHalfEvenExact(10240, div);
    MulMonotone(10, Tenths(b, div), div);
    MulMonotone(Tenths(b, div), 10240, div);
  }

  lemma UnitIndexMonotone(a: uint64, b: uint64)
    requires UNIT <= a <= b
    ensures UnitIndex(a) <= UnitIndex(b)
  {
    var i, j := UnitIndex(a), UnitIndex(b);
    if j < i {
      UnitPowerMonotone(j + 2, i + 1);
    }
  }

  lemma TenthsMonotone(a: uint64, b: uint64, div: nat)
    requires a <= b && 0 < div
    ensures Tenths(a, div) * div <= Tenths(b, div) * div
  {
    ToFloat64Monotone(a, b);
    RoundHalfEvenMonotone(10 * ToFloat64(a), 10 * ToFloat64(b), div);
    MulMonotone(Tenths(a, div), Tenths(b, div), div);
  }

  lemma PrintedTenthsMonotone(a: uint64, b: uint64)
    requires UNIT <= a <= b
    ensures PrintedTenths(a) <= PrintedTenths(b)
  {
    var i, j := UnitIndex(a), UnitIndex(b);
    UnitIndexMonotone(a, b);
    if i == j {
      TenthsMonotone(a, b, UnitPower(i + 1));
    } else {
      PrintedInUnit(a);
      PrintedInUnit(b);
      UnitPowerMonotone(i + 2, j + 1);
    }
  }

  /** Larger counts never print as smaller values, not even across a unit boundary,
      where "1024.0 KB" and "1.0 MB" read as the same value. */
  lemma FormatBytesMonotone(a: uint64, b: uint64)
    requires a <= b
    ensures ReadBytes(BytesText(a)).Some? && ReadBytes(BytesText(b)).Some?
    ensures ReadBytes(BytesText(a)).value <= ReadBytes(BytesText(b)).value
  {
    ReadBytesText(a);
    ReadBytesText(b);
    if UNIT <= a {
      PrintedTenthsMonotone(a, b);
    } else if UNIT <= b {
      PrintedInUnit(b);
      UnitPowerMonotone(1, UnitIndex(b) + 1);
    }
  }

  /** The printed value is off by at most half of its last digit (div / 20), plus what
      the conversion to binary64 loses: less than 1024 bytes. All amounts in tenths. */
  lemma FormatBytesAccuracy(b: uint64)
    requires UNIT <= b
    ensures ReadBytes(BytesText(b)).Some?
    ensures 2 * Abs(ReadBytes(BytesText(b)).value - 10 * b)
         <= UnitPower(UnitIndex(b) + 1) + 20 * Abs(ToFloat64(b) - b)
    ensures Abs(ToFloat64(b) - b) <= 1024
  {
    ReadBytesText(b);
    PrintedNearFloat(b);
    ConversionLoss(b);
    AddErrors(PrintedTenths(b), ToFloat64(b), b, UnitPower(UnitIndex(b) + 1));
  }

  lemma PrintedNearFloat(b: uint64)
    requires UNIT <= b
    ensures 2 * Abs(PrintedTenths(b) - 10 * ToFloat64(b)) <= UnitPower(UnitIndex(b) + 1)
  {
    RoundHalfEvenNearest(10 * ToFloat64(b), UnitPower(UnitIndex(b) + 1));
  }

  lemma AddErrors(printed: nat, f: nat, b: nat, div: nat)
    requires 2 * Abs(printed - 10 * f) <= div
    ensures 2 * Abs(printed - 10 * b) <= div + 20 * Abs(f - b)
  {
  }

  lemma ConversionLoss(b: uint64)
    ensures Abs(ToFloat64(b) - b) <= 1024
  {
    ToFloat64Nearest(b);
    assert Doubled(TWO_53, 11) == TWO_64 && Doubled(1, 11) == 2048;
    UlpAtMost(b, 11);
  }

  /** For every count the text is within 5% of it, and exact below 1024. */
  lemma FormatBytesWithinFivePercent(b: uint64)
    ensures ReadBytes(BytesText(b)).Some?
    ensures 20 * Abs(ReadBytes(BytesText(b)).value - 10 * b) <= 10 * b
    ensures b < UNIT ==> ReadBytes(BytesText(b)).value == 10 * b
  {
    ReadBytesText(b);
    if UNIT <= b {
      var div := UnitPower(UnitIndex(b) + 1);
      FormatBytesAccuracy(b);
      if b < TWO_53 {
        ToFloat64Exact(b);
      } else if b < div + 20480 {
        JustAboveUnit(b);
      }
    }
  }

  /** Where the conversion loses bytes, a count just above its unit prints as one unit. */
  lemma JustAboveUnit(b: uint64)
    requires TWO_53 <= b < UnitPower(UnitIndex(b) + 1) + 20480
    ensures PrintedTenths(b) == 10 * UnitPower(UnitIndex(b) + 1)
  {
    var exp := UnitIndex(b);
    ConversionLoss(b);
    FloatAtLeastUnit(b, exp + 1);
    TenTenths(ToFloat64(b), UnitPower(exp + 1));
  }

  lemma FloatAtLeastUnit(b: uint64, k: nat)
    requires UnitPower(k) <= b
    ensures UnitPower(k) <= ToFloat64(b)
  {
    UnitPowersFitBinary64(1, k);
    ToFloat64Monotone(UnitPower(k), b);
  }

  lemma TenTenths(f: nat, div: nat)
    requires 1_000_000 < div <= f <= div + 21504
    ensures RoundHalfEven(10 * f, div) == 10
  {
    RoundsDown(10 * f, div, 10, 10 * (f - div));
  }

  lemma RoundsDown(n: nat, d: nat, q: nat, r: nat)
    requires 0 < d && n == q * d + r && 2 * r < d
    ensures RoundHalfEven(n, d) == q
  {
    DivisionUnique(n, d, q, r);
  }

  /** A quotient exactly between two tenths prints with an even last digit. The conversion
      to binary64 leaves every count below 2^53 as it is. */
  lemma TiesPrintEven(b: uint64)
    requires UNIT <= b
    ensures b < TWO_53 ==> ToFloat64(b) == b
    ensures var div := UnitPower(UnitIndex(b) + 1);
      2 * (10 * ToFloat64(b) % div) == div ==> 4 <= |BytesText(b)| && BytesText(b)[|BytesText(b)| - 4] in "02468"
  {
    var exp := UnitIndex(b);
    var div := UnitPower(exp + 1);
    if 2 * (10 * ToFloat64(b) % div) == div {
      RoundHalfEvenTies(10 * ToFloat64(b), div);
      LastDigit(Tenths(b, div), SUFFIXES[exp]);
    }
  }

  lemma LastDigit(tenths: nat, suffix: char)
    requires tenths % 2 == 0
    ensures var text := OneDecimal(tenths) + " " + [suffix] + "B";
      4 <= |text| && text[|text| - 4] in "02468"
  {
    var text := OneDecimal(tenths) + " " + [suffix] + "B";
    assert text[|text| - 4] == DigitChar(tenths % 10);
  }

  /** Such a quotient: one and a quarter kilobytes. */
  lemma QuarterKilobyte()
    ensures BytesText(1280) == "1.2 KB"
  {
    UnitIndexUnique(1280, 0);
    ToFloat64Exact(1280);
    assert Tenths(1280, 1024) == 12;
    assert Decimal(1) == "1";
  }

  /** Exact multiples of a unit print without loss and are told apart. */
  lemma WholeUnitsRoundTrip(k: nat, exp: nat)
    requires exp < |SUFFIXES| && 1 <= k < UNIT
    requires k * UnitPower(exp + 1) < TWO_64
    ensures BytesText(k * UnitPower(exp + 1)) == Decimal(k) + ".0 " + [SUFFIXES[exp]] + "B"
  {
    MultipleInUnit(k, exp);
    WholeUnitTenths(k, exp);
    TenfoldText(k);
  }

  lemma WholeUnitTenths(k: nat, exp: nat)
    requires k < UNIT && k * UnitPower(exp + 1) < TWO_64
    ensures Tenths(k * UnitPower(exp + 1), UnitPower(exp + 1)) == 10 * k
  {
    ToFloat64Exact(k);
    UnitPowersFitBinary64(k, exp + 1);
    TenfoldMultiple(k, UnitPower(exp + 1));
  }

  lemma TenfoldText(k: nat)
    ensures OneDecimal(10 * k) == Decimal(k) + ".0"
  {
    assert 10 * k / 10 == k && 10 * k % 10 == 0;
  }

  lemma MultipleInUnit(k: nat, exp: nat)
    requires exp < |SUFFIXES| && 1 <= k < UNIT
    requires k * UnitPower(exp + 1) < TWO_64
    ensures UNIT <= k * UnitPower(exp + 1) && UnitIndex(k * UnitPower(exp + 1)) == exp
  {
    var div := UnitPower(exp + 1);
    MulMonotone(1, k, div);
    MulMonotone(k, UNIT - 1, div);
    UnitPowerMonotone(1, exp + 1);
    UnitIndexUnique(k * div, exp);
  }

  lemma TenfoldMultiple(k: nat, div: nat)
    requires 0 < div
    ensures RoundHalfEven(10 * (k * div), div) == 10 * k
  {
    assert 10 * (k * div) == (10 * k) * div;
    RoundHalfEvenExact(10 * k, div);
  }

  /** The boundary case of FormatBytesMonotone does occur: one byte below a megabyte. */
  lemma BoundaryReadsEqual()
    ensures BytesText(1_048_575) == "1024.0 KB" && BytesText(1_048_576) == "1.0 MB"
    ensures ReadBytes("1024.0 KB") == ReadBytes("1.0 MB")
  {
    BelowMegabyte();
    Megabyte();
    ReadBytesText(1_048_575);
    ReadBytesText(1_048_576);
  }

  lemma BelowMegabyte()
    ensures BytesText(1_048_575) == "1024.0 KB"
    ensures PrintedTenths(1_048_575) == 10_485_760
  {
    UnitIndexUnique(1_048_575, 0);
    ToFloat64Exact(1_048_575);
    assert Tenths(1_048_575, 1024) == 10 * 1024;
    TenfoldText(1024);
    assert Decimal(1) == "1" && Decimal(10) == "10" && Decimal(102) == "102" && Decimal(1024) == "1024";
  }

  lemma Megabyte()
    ensures BytesText(1_048_576) == "1.0 MB"
    ensures PrintedTenths(1_048_576) == 10_485_760
  {
    assert UnitPower(2) == 1_048_576;
    MultipleInUnit(1, 1);
    WholeUnitTenths(1, 1);
    TenfoldText(1);
  }
}
