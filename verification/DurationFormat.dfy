/** The command-line tool's uptimes: formatSeconds, and a reader of what it prints. */
module DurationFormat {
  import opened Basics
  import opened Durations
  import opened Rounding
  import opened Text

  function FormatSeconds(round: real -> real, s: int64): string {
    var d := FromSeconds(s);
    var wholeHours := Truncate(InUnits(round, d, HOUR));
    var days, hours := TruncDiv(wholeHours, 24), TruncMod(wholeHours, 24);
    var minutes := TruncMod(Truncate(InUnits(round, d, MINUTE)), 60);
    UptimeText(days, hours, minutes)
  }

  function UptimeText(days: int, hours: int, minutes: int): string {
    if 0 < days then DecimalInt(days) + ("d " + HoursMinutesText(hours, minutes))
    else HoursMinutesText(hours, minutes)
  }

  function HoursMinutesText(hours: int, minutes: int): string {
    DecimalInt(hours) + ("h " + (DecimalInt(minutes) + "m"))
  }

  /** Reads "H" + "h " + "M" + "m" as seconds. */
  function ReadHoursMinutes(text: string): Option<nat> {
    match ReadNumber(text)
    case None => None
    case Some((hours, rest)) =>
      if !HasPrefix(rest, "h ") then None else
      match ReadNumber(rest[2..])
      case None => None
      case Some((minutes, end)) => if end == "m" then Some(3600 * hours + 60 * minutes) else None
  }

  /** Reads an uptime, with or without the day field, as seconds. */
  function ReadUptime(text: string): Option<nat> {
    match ReadNumber(text)
    case None => None
    case Some((days, rest)) =>
      if !HasPrefix(rest, "d ") then ReadHoursMinutes(text) else
      match ReadHoursMinutes(rest[2..])
      case None => None
      case Some(s) => Some(86400 * days + s)
  }

  lemma ReadNumberOfInt(n: int, rest: string)
    requires rest == [] || !IsDigit(rest[0])
    ensures ReadNumber(DecimalInt(n) + rest) == if n < 0 then None else Some((n, rest))
  {
    if n < 0 {
      assert (DecimalInt(n) + rest)[0] == '-';
    } else {
      ReadNumberOfDecimal(n, rest);
    }
  }

  lemma ReadHoursMinutesText(hours: int, minutes: int)
    ensures ReadHoursMinutes(HoursMinutesText(hours, minutes))
         == if hours < 0 || minutes < 0 then None else Some(3600 * hours + 60 * minutes)
  {
    var tail := DecimalInt(minutes) + "m";
    ReadNumberOfInt(hours, "h " + tail);
    assert ("h " + tail)[2..] == tail;
    ReadNumberOfInt(minutes, "m");
  }

  /** What any three printed fields read as: a field with a sign is not an uptime. */
  lemma ReadUptimeText(days: int, hours: int, minutes: int)
    ensures ReadUptime(UptimeText(days, hours, minutes))
         == if hours < 0 || minutes < 0 then None
            else Some((if 0 < days then 86400 * days else 0) + 3600 * hours + 60 * minutes)
  {
    ReadHoursMinutesText(hours, minutes);
    var tail := HoursMinutesText(hours, minutes);
    if 0 < days {
      ReadNumberOfInt(days, "d " + tail);
      assert ("d " + tail)[2..] == tail;
    } else {
      var rest := "h " + (DecimalInt(minutes) + "m");
      ReadNumberOfInt(hours, rest);
      assert rest[0] == 'h';
    }
  }

  /** On the whole range of durations, the float arithmetic yields exact hours and minutes. */
  lemma FloatUnitsExact(round: real -> real, s: int64)
    requires IsRounding(round) && 0 <= s <= MAX_SECONDS
    ensures FromSeconds(s) == s * SECOND
    ensures Truncate(InUnits(round, FromSeconds(s), HOUR)) == s / 3600
    ensures Truncate(InUnits(round, FromSeconds(s), MINUTE)) == s / 60
  {
    var d := s * SECOND;
    WholeSecondsInUnits(s);
    InUnitsTruncates(round, d, HOUR);
    InUnitsTruncates(round, d, MINUTE);
  }

  lemma WholeSecondsInUnits(s: nat)
    ensures s * SECOND / HOUR == s / 3600 && s * SECOND % HOUR == (s % 3600) * SECOND
    ensures s * SECOND / MINUTE == s / 60 && s * SECOND % MINUTE == (s % 60) * SECOND
  {
  }

  lemma FormatSecondsFields(round: real -> real, s: int64)
    requires IsRounding(round) && 0 <= s <= MAX_SECONDS
    ensures FormatSeconds(round, s) == UptimeText(s / 3600 / 24, s / 3600 % 24, s / 60 % 60)
  {
    FloatUnitsExact(round, s);
    TruncNonNegative(s / 3600, 24);
    TruncNonNegative(s / 60, 60);
  }

  /** The printed uptime is the duration rounded down to a whole minute. */
  lemma FormatSecondsReads(round: real -> real, s: int64)
    requires IsRounding(round) && 0 <= s <= MAX_SECONDS
    ensures ReadUptime(FormatSeconds(round, s)) == Some(s - s % 60)
  {
    FormatSecondsFields(round, s);
    MinuteFields(s);
    ReadUptimeText(s / 3600 / 24, s / 3600 % 24, s / 60 % 60);
  }

  lemma MinuteFields(s: nat)
    ensures 86400 * (s / 3600 / 24) + 3600 * (s / 3600 % 24) + 60 * (s / 60 % 60) == s - s % 60
  {
    var m := s / 60;
    var h := m / 60;
    assert s == 60 * m + s % 60 && m == 60 * h + m % 60 && h == 24 * (h / 24) + h % 24;
    assert s / 3600 == h;
  }

  /** The printed text, from its fields: a day field only when there are days, and nothing
      padded. */
  lemma FormatSecondsIs(round: real -> real, s: int64, days: nat, hours: nat, minutes: nat, seconds: nat)
    requires IsRounding(round) && s == 86400 * days + 3600 * hours + 60 * minutes + seconds <= MAX_SECONDS
    requires hours < 24 && minutes < 60 && seconds < 60
    ensures FormatSeconds(round, s)
         == if days == 0 then Decimal(hours) + "h " + Decimal(minutes) + "m"
            else Decimal(days) + "d " + Decimal(hours) + "h " + Decimal(minutes) + "m"
  {
    FormatSecondsFields(round, s);
    FieldsOf(s, days, hours, minutes, seconds);
    UptimeTextIs(days, hours, minutes);
  }

  lemma UptimeTextIs(days: nat, hours: nat, minutes: nat)
    ensures UptimeText(days, hours, minutes)
         == if days == 0 then Decimal(hours) + "h " + Decimal(minutes) + "m"
            else Decimal(days) + "d " + Decimal(hours) + "h " + Decimal(minutes) + "m"
  {
    Flatten(Decimal(days), Decimal(hours), Decimal(minutes));
  }

  lemma Flatten(days: string, hours: string, minutes: string)
    ensures hours + ("h " + (minutes + "m")) == hours + "h " + minutes + "m"
    ensures days + ("d " + (hours + ("h " + (minutes + "m")))) == days + "d " + hours + "h " + minutes + "m"
  {
  }

  lemma FieldsOf(s: nat, days: nat, hours: nat, minutes: nat, seconds: nat)
    requires s == 86400 * days + 3600 * hours + 60 * minutes + seconds
    requires hours < 24 && minutes < 60 && seconds < 60
    ensures s / 3600 / 24 == days && s / 3600 % 24 == hours && s / 60 % 60 == minutes
  {
    assert s / 60 == 1440 * days + 60 * hours + minutes;
    assert s / 3600 == 24 * days + hours;
  }

  /** Below zero the fields carry the sign each, and days are lost. */
  lemma FormatSecondsBelowZero(round: real -> real, s: int64, days: nat, hours: nat, minutes: nat, seconds: nat)
    requires IsRounding(round) && 0 - s as int == 86400 * days + 3600 * hours + 60 * minutes + seconds <= MAX_SECONDS
    requires hours < 24 && minutes < 60 && seconds < 60
    ensures FormatSeconds(round, s) == Signed(hours) + "h " + Signed(minutes) + "m"
  {
    var n := 86400 * days + 3600 * hours + 60 * minutes + seconds;
    FieldsOf(n, days, hours, minutes, seconds);
    UnitsBelowZero(round, s, n);
    TruncBelow(n / 3600, 24);
    TruncBelow(n / 60, 60);
    SignedFields(0 - days as int, hours, minutes);
  }

  /** A field of a negative uptime. */
  function Signed(n: nat): string {
    if n == 0 then "0" else "-" + Decimal(n)
  }

  lemma SignedFields(days: int, hours: int, minutes: int)
    requires days <= 0 <= hours && 0 <= minutes
    ensures UptimeText(days, -hours, -minutes) == Signed(hours) + "h " + Signed(minutes) + "m"
  {
    Flatten("", Signed(hours), Signed(minutes));
    assert DecimalInt(-hours) == Signed(hours) && DecimalInt(-minutes) == Signed(minutes);
  }

  lemma UnitsBelowZero(round: real -> real, s: int64, n: int)
    requires IsRounding(round) && 0 <= n <= MAX_SECONDS && s == -n
    ensures FromSeconds(s) == -(n * SECOND)
    ensures Truncate(InUnits(round, FromSeconds(s), HOUR)) == -(n / 3600)
    ensures Truncate(InUnits(round, FromSeconds(s), MINUTE)) == -(n / 60)
  {
    FromSecondsIs(s);
    HoursBelowZero(round, n);
    MinutesBelowZero(round, n);
  }

  lemma HoursBelowZero(round: real -> real, n: int)
    requires IsRounding(round) && 0 <= n <= MAX_SECONDS
    ensures Truncate(InUnits(round, -(n * SECOND), HOUR)) == -(n / 3600)
  {
    WholeSecondsInUnits(n);
    InUnitsTruncatesBelow(round, n * SECOND, HOUR);
  }

  lemma MinutesBelowZero(round: real -> real, n: int)
    requires IsRounding(round) && 0 <= n <= MAX_SECONDS
    ensures Truncate(InUnits(round, -(n * SECOND), MINUTE)) == -(n / 60)
  {
    WholeSecondsInUnits(n);
    InUnitsTruncatesBelow(round, n * SECOND, MINUTE);
  }

  /** Two durations print the same exactly when they fall in the same minute. */
  lemma FormatSecondsInjectiveOnMinutes(round: real -> real, s: int64, t: int64)
    requires IsRounding(round) && 0 <= s <= MAX_SECONDS && 0 <= t <= MAX_SECONDS
    ensures FormatSeconds(round, s) == FormatSeconds(round, t) <==> s / 60 == t / 60
  {
    FormatSecondsReads(round, s);
    FormatSecondsReads(round, t);
    FormatSecondsFields(round, s);
    FormatSecondsFields(round, t);
    assert s / 3600 == s / 60 / 60 && t / 3600 == t / 60 / 60;
  }

  // ---- beyond the range of a duration ----

  /** Of any duration at all, at most 2562048 hours are printed. */
  lemma HoursBounded(round: real -> real, d: int64)
    requires IsRounding(round)
    ensures Truncate(InUnits(round, d, HOUR)) <= 2_562_048
    ensures d < 0 ==> Truncate(InUnits(round, d, HOUR)) <= 0
    ensures d < 0 ==> Truncate(InUnits(round, d, MINUTE)) <= 0
  {
    UnitsBounded(round, d, HOUR, 2_562_047);
    UnitsBounded(round, d, MINUTE, 153_722_867);
  }

  /** The reading is the argument, truncated to a whole minute, exactly for arguments above
      minus one minute and within the range of a duration: below, a sign is printed or lost,
      and beyond, the product with time.Second wraps around. */
  lemma FormatSecondsExactlyInRange(round: real -> real, s: int64)
    requires IsRounding(round)
    ensures ReadUptime(FormatSeconds(round, s)) == Some(s - TruncMod(s, 60)) <==> -60 < s <= MAX_SECONDS
  {
    if s <= -60 {
      WholeMinuteBelowZero(s);
      NoNegativeReading(ReadUptime(FormatSeconds(round, s)), s - TruncMod(s, 60));
    } else if s < 0 {
      ReadsZero(round, s);
    } else {
      TruncNonNegative(s, 60);
      if s <= MAX_SECONDS {
        FormatSecondsReads(round, s);
      } else {
        BeyondRange(round, s);
      }
    }
  }

  lemma NoNegativeReading(reading: Option<nat>, n: int)
    requires n < 0
    ensures reading != Some(n)
  {
  }

  lemma ReadsZero(round: real -> real, s: int64)
    requires IsRounding(round) && -60 < s < 0
    ensures ReadUptime(FormatSeconds(round, s)) == Some(0) && s - TruncMod(s, 60) == 0
  {
    FormatSecondsBelowZero(round, s, 0, 0, 0, 0 - s as int);
    ReadUptimeText(0, 0, 0);
    UptimeTextIs(0, 0, 0);
    AllRemainder(s);
  }

  lemma AllRemainder(s: int64)
    requires -60 < s < 0
    ensures TruncMod(s, 60) == s
  {
  }

  lemma WholeMinuteBelowZero(s: int64)
    requires s <= -60
    ensures s - TruncMod(s, 60) < 0
  {
  }

  lemma BeyondRange(round: real -> real, s: int64)
    requires IsRounding(round) && MAX_SECONDS < s
    ensures ReadUptime(FormatSeconds(round, s)) != Some(s - s % 60)
  {
    var d := FromSeconds(s);
    HoursBounded(round, d);
    WrappedDurations(s);
    var wholeHours := Truncate(InUnits(round, d, HOUR));
    var days, hours := TruncDiv(wholeHours, 24), TruncMod(wholeHours, 24);
    var minutes := TruncMod(Truncate(InUnits(round, d, MINUTE)), 60);
    ReadUptimeText(days, hours, minutes);
  }
}
