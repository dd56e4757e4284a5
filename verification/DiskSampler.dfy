/** GetDisk: disk usage entries with I/O rates taken as deltas from the previous call.
    round is the rounding of the float64 operations. */
module DiskSampler {
  import opened Basics
  import opened Durations
  import opened Rounding
  import opened Text

  datatype IOCountersStat = IOCountersStat(
    readBytes: uint64, writeBytes: uint64, readCount: uint64, writeCount: uint64, ioTime: uint64)

  type Counters = map<string, IOCountersStat>

  datatype PartitionStat = PartitionStat(device: string, mountpoint: string, fstype: string)

  datatype UsageStat = UsageStat(total: uint64, used: uint64, usedPercent: real)

  datatype DiskIO = DiskIO(
    readBytesPerS: real, writeBytesPerS: real, readIOPS: real, writeIOPS: real, utilPct: real)

  datatype DiskEntry = DiskEntry(
    device: string, mountpoint: string, totalBytes: uint64, usedBytes: uint64, usagePct: real, io: Option<DiskIO>)

  /** One reading of the I/O counters: None when they could not be read, and the clock in
      nanoseconds. The zero time marks a module that has not sampled yet. */
  datatype Sample = Sample(counters: Option<Counters>, at: int)

  const ZERO_TIME: int := 0
  const NO_SAMPLE := Sample(None, ZERO_TIME)

  const PSEUDO_FS: set<string> := {
    "tmpfs", "devtmpfs", "proc", "sysfs",
    "devpts", "cgroup", "cgroup2", "pstore",
    "hugetlbfs", "mqueue", "debugfs", "tracefs",
    "securityfs", "fusectl", "configfs", "bpf",
    "overlay", "squashfs", "efivarfs"
  }

  // ---- one window between two samples ----

  /** Time.Sub: the difference, saturating at the limits of a Duration. */
  function TimeSub(t: int, u: int): int64 {
    if TWO_63 <= t - u then TWO_63 - 1 else if t - u < -TWO_63 then -TWO_63 else t - u
  }

  lemma TimeSubIs(t: int, u: int)
    ensures -0x8000_0000_0000_0000 <= t - u < 0x8000_0000_0000_0000 ==> TimeSub(t, u) == t - u
    ensures 0x8000_0000_0000_0000 <= t - u ==> TimeSub(t, u) == 0x7fff_ffff_ffff_ffff
    ensures t - u < -0x8000_0000_0000_0000 ==> TimeSub(t, u) == -0x8000_0000_0000_0000
    ensures 0 < TimeSub(t, u) <==> u < t
  {
  }

  /** Seconds from the previous sample to this one; zero without a previous sample. */
  function Elapsed(round: real -> real, prev: Sample, cur: Sample): real {
    if prev.at == ZERO_TIME then 0.0 else InUnits(round, TimeSub(cur.at, prev.at), SECOND)
  }

  function PerSecond(round: real -> real, now: uint64, was: uint64, elapsed: real): real
    requires 0.0 < elapsed
  {
    round(round(SubUint64(now, was) as real) / elapsed)
  }

  /** Busy milliseconds as a percentage of the window's milliseconds, capped at 100. */
  function Utilisation(round: real -> real, now: uint64, was: uint64, elapsed: real): (pct: real)
    ensures pct <= 100.0
  {
    var elapsedMs := round(elapsed * 1000.0);
    var pct := if 0.0 < elapsedMs then round(round(round(SubUint64(now, was) as real) / elapsedMs) * 100.0) else 0.0;
    if 100.0 < pct then 100.0 else pct
  }

  lemma UtilisationNonNegative(round: real -> real, eps: real, now: uint64, was: uint64, elapsed: real)
    requires IsAccurate(round, eps)
    ensures 0.0 <= Utilisation(round, now, was, elapsed)
  {
    var elapsedMs := round(elapsed * 1000.0);
    if 0.0 < elapsedMs {
      var busy := round(SubUint64(now, was) as real);
      SignKept(round, eps, SubUint64(now, was) as real);
      var _ := Quotient(busy, elapsedMs);
      SignKept(round, eps, busy / elapsedMs);
      SignKept(round, eps, round(busy / elapsedMs) * 100.0);
    }
  }

  function Rates(round: real -> real, now: IOCountersStat, was: IOCountersStat, elapsed: real): DiskIO
    requires 0.0 < elapsed
  {
    DiskIO(
      PerSecond(round, now.readBytes, was.readBytes, elapsed),
      PerSecond(round, now.writeBytes, was.writeBytes, elapsed),
      PerSecond(round, now.readCount, was.readCount, elapsed),
      PerSecond(round, now.writeCount, was.writeCount, elapsed),
      Utilisation(round, now.ioTime, was.ioTime, elapsed))
  }

  /** The I/O rates of a device over the window, where they are reported at all. */
  function WindowIO(round: real -> real, prev: Sample, cur: Sample, dev: string): Option<DiskIO> {
    var elapsed := Elapsed(round, prev, cur);
    if 0.0 < elapsed && Has(prev, dev) && Has(cur, dev) then
      Some(Rates(round, cur.counters.value[dev], prev.counters.value[dev], elapsed))
    else
      None
  }

  predicate Has(s: Sample, dev: string) {
    s.counters.Some? && dev in s.counters.value
  }

  /** Time has advanced from prev, which is a real sample, to cur. */
  predicate Advances(prev: Sample, cur: Sample) {
    prev.at != ZERO_TIME && prev.at < cur.at
  }

  lemma ElapsedPositiveIff(round: real -> real, eps: real, prev: Sample, cur: Sample)
    requires IsAccurate(round, eps)
    ensures 0.0 < Elapsed(round, prev, cur) <==> Advances(prev, cur)
  {
    if prev.at != ZERO_TIME {
      SecondsPositiveIff(round, eps, TimeSub(cur.at, prev.at));
    }
  }

  /** Not even a single nanosecond is rounded to zero. */
  lemma SecondsPositiveIff(round: real -> real, eps: real, d: int64)
    requires IsAccurate(round, eps)
    ensures 0.0 < InUnits(round, d, SECOND) <==> 0 < d
  {
    var whole, rest := TruncDiv(d, SECOND), TruncMod(d, SECOND);
    SecondParts(d);
    var q := rest as real / SECOND as real;
    SignKept(round, eps, q);
    SignKept(round, eps, whole as real + round(q));
  }

  lemma SecondParts(d: int64)
    ensures var whole, rest := TruncDiv(d, SECOND), TruncMod(d, SECOND);
      && (0 < d ==> 0 <= whole && 0 <= rest && (0 < whole || 0 < rest))
      && (d <= 0 ==> whole <= 0 && rest <= 0)
  {
    if d <= 0 {
      var n: int := 0 - d as int;
      assert n == SECOND * (n / SECOND) + n % SECOND;
    }
  }

  /** Rates are reported exactly when time advances and both samples know the device; the
      utilisation is a percentage. */
  lemma ReportedIff(round: real -> real, eps: real, prev: Sample, cur: Sample, dev: string)
    requires IsAccurate(round, eps)
    ensures WindowIO(round, prev, cur, dev).Some? <==> Advances(prev, cur) && Has(prev, dev) && Has(cur, dev)
    ensures WindowIO(round, prev, cur, dev).Some? ==> 0.0 <= WindowIO(round, prev, cur, dev).value.utilPct <= 100.0
  {
    ElapsedPositiveIff(round, eps, prev, cur);
    if WindowIO(round, prev, cur, dev).Some? {
      UtilisationNonNegative(round, eps, cur.counters.value[dev].ioTime, prev.counters.value[dev].ioTime,
                             Elapsed(round, prev, cur));
    }
  }

  // ---- what the rates mean ----

  /** The time between two samples, in seconds and unrounded. */
  function Seconds(prev: Sample, cur: Sample): real {
    TimeSub(cur.at, prev.at) as real / 1_000_000_000.0
  }

  lemma SecondsAre(prev: Sample, cur: Sample)
    requires 0 <= cur.at - prev.at < 0x8000_0000_0000_0000
    ensures Seconds(prev, cur) == (cur.at - prev.at) as real / 1_000_000_000.0
  {
    TimeSubIs(cur.at, prev.at);
  }

  /** The elapsed time the rates are computed with is the time between the samples. */
  lemma ElapsedNear(round: real -> real, eps: real, prev: Sample, cur: Sample)
    requires IsAccurate(round, eps) && Advances(prev, cur)
    ensures 0.0 < Seconds(prev, cur)
    ensures Near(Elapsed(round, prev, cur), Seconds(prev, cur), 2.0 * eps + eps * eps)
  {
    TimeSubIs(cur.at, prev.at);
    SecondsNear(round, eps, TimeSub(cur.at, prev.at));
  }

  lemma ElapsedNearly(round: real -> real, eps: real, prev: Sample, cur: Sample)
    requires IsAccurate(round, eps) && Advances(prev, cur)
    ensures 0.0 < Seconds(prev, cur)
    ensures Near(Elapsed(round, prev, cur), Seconds(prev, cur), 2.0625 * eps)
  {
    ElapsedNear(round, eps, prev, cur);
    SmallSquare(eps);
    NearWeaken(Elapsed(round, prev, cur), Seconds(prev, cur), 2.0 * eps + eps * eps, 2.0625 * eps);
  }

  /** The percentage before the cap is applied. */
  lemma UtilisationNear(round: real -> real, eps: real, now: uint64, was: uint64, e: real, t: real)
    returns (pct: real)
    requires IsAccurate(round, eps) && 0.0 < e && 0.0 < t && Near(e, t, 2.0625 * eps)
    ensures Near(pct, SubUint64(now, was) as real / (t * 1000.0) * 100.0, 9.0 * eps)
    ensures Utilisation(round, now, was, e) == if 100.0 < pct then 100.0 else pct
  {
    var ms := round(e * 1000.0);
    SignKept(round, eps, e * 1000.0);
    MillisecondsNear(round, eps, e, t);
    pct := ShareInPercent(round, eps, SubUint64(now, was) as real, ms, t * 1000.0);
  }

  lemma ShareInPercent(round: real -> real, eps: real, x: real, ms: real, t: real) returns (pct: real)
    requires IsAccurate(round, eps) && 0.0 <= x && 0.0 < ms && 0.0 < t && Near(ms, t, 3.25 * eps)
    ensures Near(pct, x / t * 100.0, 9.0 * eps)
    ensures pct == round(round(round(x) / ms) * 100.0)
  {
    var b, c := ShareBudget(eps);
    var q, p := ShareNear(round, eps, x, ms, t, b, c);
    pct := round(round(q) * 100.0);
    PercentNear(round, eps, q, p);
  }

  lemma MillisecondsNear(round: real -> real, eps: real, e: real, t: real)
    requires IsAccurate(round, eps) && 0.0 < e && 0.0 < t && Near(e, t, 2.0625 * eps)
    ensures Near(round(e * 1000.0), t * 1000.0, 3.25 * eps)
  {
    SmallSquare(eps);
    NearScaled(e, t, 1000.0, 2.0625 * eps);
    assert Near(round(e * 1000.0), e * 1000.0, eps);
    NearThrough(round(e * 1000.0), e * 1000.0, t * 1000.0, eps, 2.0625 * eps, 3.25 * eps);
  }

  lemma PercentNear(round: real -> real, eps: real, q: real, p: real)
    requires IsAccurate(round, eps) && 0.0 <= q && 0.0 <= p && Near(q, p, 5.5 * eps)
    ensures Near(round(round(q) * 100.0), p * 100.0, 9.0 * eps)
  {
    SmallSquare(eps);
    SignKept(round, eps, q);
    assert Near(round(q), q, eps);
    NearThrough(round(q), q, p, eps, 5.5 * eps, 7.0 * eps);
    NearScaled(round(q), p, 100.0, 7.0 * eps);
    var r := round(q) * 100.0;
    assert Near(round(r), r, eps);
    NearThrough(round(r), r, p * 100.0, eps, 7.0 * eps, 9.0 * eps);
  }

  // ---- the entries of one call ----

  predicate Listed(p: PartitionStat, usage: Option<UsageStat>) {
    p.fstype !in PSEUDO_FS && usage.Some?
  }

  function DeviceName(p: PartitionStat): string {
    TrimPrefix(p.device, "/dev/")
  }

  function Entry(round: real -> real, p: PartitionStat, usage: UsageStat, prev: Sample, cur: Sample): DiskEntry {
    DiskEntry(p.device, p.mountpoint, usage.total, usage.used, usage.usedPercent,
              WindowIO(round, prev, cur, DeviceName(p)))
  }

  /** One entry for each real partition whose usage can be read, in partition order. */
  function Entries(
    round: real -> real, partitions: seq<PartitionStat>, usages: seq<Option<UsageStat>>, prev: Sample, cur: Sample)
    : seq<DiskEntry>
    requires |usages| == |partitions|
  {
    if partitions == [] then []
    else
      var i := |partitions| - 1;
      Entries(round, partitions[..i], usages[..i], prev, cur)
      + if Listed(partitions[i], usages[i]) then [Entry(round, partitions[i], usages[i].value, prev, cur)] else []
  }

  /** What the operating system answers during one call: the partition listing or its
      error, the clock, the counters, and the usage of each partition. */
  datatype DiskCall = DiskCall(
    partitions: Result<seq<PartitionStat>, string>,
    now: int,
    counters: Option<Counters>,
    usages: seq<Option<UsageStat>>)
  {
    predicate Valid() {
      partitions.Ok? ==> |usages| == |partitions.value|
    }

    function Taken(): Sample {
      Sample(counters, now)
    }
  }

  /** The baseline after a call. */
  function After(prev: Sample, call: DiskCall): Sample {
    if call.partitions.Err? then prev else call.Taken()
  }

  /** What a call returns. */
  function Reply(round: real -> real, prev: Sample, call: DiskCall): Result<seq<DiskEntry>, string>
    requires call.Valid()
  {
    match call.partitions
    case Err(e) => Err(e)
    case Ok(ps) => Ok(Entries(round, ps, call.usages, prev, call.Taken()))
  }

  /** The rates attached to an entry. */
  method ComputeRates(round: real -> real, cur: IOCountersStat, was: IOCountersStat, elapsed: real)
    returns (io: DiskIO)
    requires 0.0 < elapsed
    ensures io == Rates(round, cur, was, elapsed)
  {
    var elapsedMs := round(elapsed * 1000.0);
    var utilPct := 0.0;
    if 0.0 < elapsedMs {
      utilPct := round(round(round(SubUint64(cur.ioTime, was.ioTime) as real) / elapsedMs) * 100.0);
      if 100.0 < utilPct {
        utilPct := 100.0;
      }
    }
    return DiskIO(
      round(round(SubUint64(cur.readBytes, was.readBytes) as real) / elapsed),
      round(round(SubUint64(cur.writeBytes, was.writeBytes) as real) / elapsed),
      round(round(SubUint64(cur.readCount, was.readCount) as real) / elapsed),
      round(round(SubUint64(cur.writeCount, was.writeCount) as real) / elapsed),
      utilPct);
  }

  /** The module's sampling state. */
  class Module {
    var prevIO: Option<Counters>
    var prevIOAt: int

    constructor ()
      ensures Baseline() == NO_SAMPLE
    {
      prevIO, prevIOAt := None, ZERO_TIME;
    }

    function Baseline(): Sample
      reads this
    {
      Sample(prevIO, prevIOAt)
    }

    method GetDisk(round: real -> real, call: DiskCall) returns (r: Result<seq<DiskEntry>, string>)
      requires call.Valid()
      modifies this
      ensures Baseline() == if call.partitions.Err? then old(Baseline()) else Sample(call.counters, call.now)
      ensures Baseline() == After(old(Baseline()), call)
      ensures call.partitions.Err? ==> r == Err(call.partitions.error)
      ensures call.partitions.Ok? ==>
        r == Ok(Entries(round, call.partitions.value, call.usages, old(Baseline()), Sample(call.counters, call.now)))
      ensures r == Reply(round, old(Baseline()), call)
    {
      if call.partitions.Err? {
        return Err(call.partitions.error);
      }
      var now, ioCounters := call.now, call.counters;
      var prev, prevAt := prevIO, prevIOAt;
      prevIO, prevIOAt := ioCounters, now;

      var elapsed := 0.0;
      if prevAt != ZERO_TIME {
        elapsed := InUnits(round, TimeSub(now, prevAt), SECOND);
      }

      assert elapsed == Elapsed(round, old(Baseline()), call.Taken());
      var partitions := call.partitions.value;
      var entries: seq<DiskEntry> := [];
      for i := 0 to |partitions|
        invariant Baseline() == call.Taken()
        invariant entries == Entries(round, partitions[..i], call.usages[..i], old(Baseline()), call.Taken())
      {
        assert partitions[..i + 1][..i] == partitions[..i] && call.usages[..i + 1][..i] == call.usages[..i];
        var p := partitions[i];
        if p.fstype in PSEUDO_FS || call.usages[i].None? {
          continue;
        }
        var usage := call.usages[i].value;
        var entry := DiskEntry(p.device, p.mountpoint, usage.total, usage.used, usage.usedPercent, None);
        if 0.0 < elapsed && prev.Some? && ioCounters.Some? {
          var devName := TrimPrefix(p.device, "/dev/");
          if devName in ioCounters.value && devName in prev.value {
            var cur, was := ioCounters.value[devName], prev.value[devName];
            var io := ComputeRates(round, cur, was, elapsed);
            entry := entry.(io := Some(io));
          }
        }
        assert entry == Entry(round, p, usage, old(Baseline()), call.Taken());
        entries := entries + [entry];
      }
      assert partitions[..|partitions|] == partitions && call.usages[..|partitions|] == call.usages;
      return Ok(entries);
    }
  }

  // ---- telescoping over a chain of samples ----

  /** The cumulative counters that are reported as rates. */
  datatype Metric = ReadBytes | WriteBytes | ReadCount | WriteCount

  function Reading(m: Metric, s: Sample, dev: string): uint64
    requires Has(s, dev)
  {
    var c := s.counters.value[dev];
    match m
    case ReadBytes => c.readBytes
    case WriteBytes => c.writeBytes
    case ReadCount => c.readCount
    case WriteCount => c.writeCount
  }

  function Rate(m: Metric, io: DiskIO): real {
    match m
    case ReadBytes => io.readBytesPerS
    case WriteBytes => io.writeBytesPerS
    case ReadCount => io.readIOPS
    case WriteCount => io.writeIOPS
  }

  /** Every sample of the chain has a reading of the device. */
  predicate Tracked(chain: seq<Sample>, dev: string) {
    forall s | s in chain :: Has(s, dev)
  }

  /** The sum of f over the windows of a chain. */
  function ChainSum(f: (Sample, Sample) -> real, chain: seq<Sample>): real {
    if |chain| < 2 then 0.0
    else ChainSum(f, chain[..|chain| - 1]) + f(chain[|chain| - 2], chain[|chain| - 1])
  }

  lemma ChainSumExtend(f: (Sample, Sample) -> real, chain: seq<Sample>, cur: Sample)
    requires chain != []
    ensures ChainSum(f, chain + [cur]) == ChainSum(f, chain) + f(chain[|chain| - 1], cur)
  {
    assert (chain + [cur])[..|chain|] == chain;
  }

  function Amount(m: Metric, io: Option<DiskIO>, seconds: real): real {
    if io.None? then 0.0 else Rate(m, io.value) * seconds
  }

  /** What a window reports of a metric: rate times time, nothing without a rate. */
  function WindowAmount(round: real -> real, m: Metric, dev: string): (Sample, Sample) -> real {
    (prev: Sample, cur: Sample) => Amount(m, WindowIO(round, prev, cur, dev), Seconds(prev, cur))
  }

  /** Rate times time, summed over the windows of the chain that report I/O. */
  function ReportedTotal(round: real -> real, m: Metric, chain: seq<Sample>, dev: string): real {
    ChainSum(WindowAmount(round, m, dev), chain)
  }

  /** What a reporting window stands for: the difference of its counters, modulo 2^64. */
  function WindowGrowth(m: Metric, dev: string): (Sample, Sample) -> real {
    (prev: Sample, cur: Sample) =>
      if Advances(prev, cur) && Has(prev, dev) && Has(cur, dev)
      then SubUint64(Reading(m, cur, dev), Reading(m, prev, dev)) as real else 0.0
  }

  /** Counter growth over the windows that report nothing because time did not advance. */
  function UnreportedTotal(m: Metric, chain: seq<Sample>, dev: string): int
    requires Tracked(chain, dev)
  {
    if |chain| < 2 then 0
    else
      var prev, cur := chain[|chain| - 2], chain[|chain| - 1];
      UnreportedTotal(m, chain[..|chain| - 1], dev)
      + if Advances(prev, cur) then 0 else Reading(m, cur, dev) - Reading(m, prev, dev)
  }

  /** How often a reported window saw the counter go down (it wrapped or was reset). */
  function Decreases(m: Metric, chain: seq<Sample>, dev: string): nat
    requires Tracked(chain, dev)
  {
    if |chain| < 2 then 0
    else
      var prev, cur := chain[|chain| - 2], chain[|chain| - 1];
      Decreases(m, chain[..|chain| - 1], dev)
      + if Advances(prev, cur) && Reading(m, cur, dev) < Reading(m, prev, dev) then 1 else 0
  }

  /** Every reported rate is the difference of its counters over the time between the
      samples, to five roundings. */
  lemma RateIs(round: real -> real, eps: real, m: Metric, prev: Sample, cur: Sample, dev: string)
    requires IsAccurate(round, eps) && Advances(prev, cur) && Has(prev, dev) && Has(cur, dev)
    ensures 0.0 < Seconds(prev, cur) && WindowIO(round, prev, cur, dev).Some?
    ensures Near(Rate(m, WindowIO(round, prev, cur, dev).value),
                 SubUint64(Reading(m, cur, dev), Reading(m, prev, dev)) as real / Seconds(prev, cur), 5.0 * eps)
  {
    ElapsedPositiveIff(round, eps, prev, cur);
    ElapsedNearly(round, eps, prev, cur);
    RoundedQuotientNear(round, eps, SubUint64(Reading(m, cur, dev), Reading(m, prev, dev)) as real,
                        Elapsed(round, prev, cur), Seconds(prev, cur));
  }

  /** The counters of a device over a window, and the seconds between the two clock readings. */
  predicate Window(prev: Sample, cur: Sample, dev: string, was: IOCountersStat, now: IOCountersStat, t: real) {
    && prev.at != ZERO_TIME && 0 < cur.at - prev.at < 0x8000_0000_0000_0000
    && t == (cur.at - prev.at) as real / 1_000_000_000.0
    && prev.counters.Some? && dev in prev.counters.value && prev.counters.value[dev] == was
    && cur.counters.Some? && dev in cur.counters.value && cur.counters.value[dev] == now
  }

  /** The four rates field by field: bytes and operations per second. */
  lemma RatesPerSecond(
    round: real -> real, eps: real, prev: Sample, cur: Sample, dev: string,
    was: IOCountersStat, now: IOCountersStat, t: real)
    requires IsAccurate(round, eps) && Window(prev, cur, dev, was, now, t)
    ensures 0.0 < t && WindowIO(round, prev, cur, dev).Some?
    ensures var io := WindowIO(round, prev, cur, dev).value;
      && Near(io.readBytesPerS, SubUint64(now.readBytes, was.readBytes) as real / t, 5.0 * eps)
      && Near(io.writeBytesPerS, SubUint64(now.writeBytes, was.writeBytes) as real / t, 5.0 * eps)
      && Near(io.readIOPS, SubUint64(now.readCount, was.readCount) as real / t, 5.0 * eps)
      && Near(io.writeIOPS, SubUint64(now.writeCount, was.writeCount) as real / t, 5.0 * eps)
  {
    SecondsAre(prev, cur);
    RateIs(round, eps, ReadBytes, prev, cur, dev);
    RateIs(round, eps, WriteBytes, prev, cur, dev);
    RateIs(round, eps, ReadCount, prev, cur, dev);
    RateIs(round, eps, WriteCount, prev, cur, dev);
  }

  /** The utilisation: busy milliseconds of the milliseconds between the readings, in percent,
      and 100 where that is more. */
  lemma UtilisationPercent(
    round: real -> real, eps: real, prev: Sample, cur: Sample, dev: string,
    was: IOCountersStat, now: IOCountersStat, t: real)
    returns (pct: real)
    requires IsAccurate(round, eps) && Window(prev, cur, dev, was, now, t)
    ensures 0.0 < t && WindowIO(round, prev, cur, dev).Some?
    ensures Near(pct, SubUint64(now.ioTime, was.ioTime) as real / (t * 1000.0) * 100.0, 9.0 * eps)
    ensures WindowIO(round, prev, cur, dev).value.utilPct == if 100.0 < pct then 100.0 else pct
  {
    SecondsAre(prev, cur);
    ElapsedPositiveIff(round, eps, prev, cur);
    ElapsedNearly(round, eps, prev, cur);
    pct := UtilisationNear(round, eps, now.ioTime, was.ioTime, Elapsed(round, prev, cur), t);
  }

  /** A rate, multiplied by a time near its own, is off by at most the fraction k. */
  ghost predicate RateError(round: real -> real, near: real, k: real) {
    forall x: real, e: real, t: real | 0.0 <= x && 0.0 < e && 0.0 < t && Near(e, t, near) ::
      Near(AmountOf(round, x, e, t), x, k)
  }

  function AmountOf(round: real -> real, x: real, e: real, t: real): real
    requires 0.0 < e
  {
    round(round(x) / e) * t
  }

  lemma RateErrorOf(round: real -> real, eps: real)
    requires IsAccurate(round, eps)
    ensures RateError(round, 2.0625 * eps, 5.0 * eps)
  {
    forall x: real, e: real, t: real | 0.0 <= x && 0.0 < e && 0.0 < t && Near(e, t, 2.0625 * eps)
      ensures Near(AmountOf(round, x, e, t), x, 5.0 * eps)
    {
      RoundedQuotientTimes(round, eps, x, e, t);
    }
  }

  /** A window's amount, rate times seconds, is the difference of its counters. */
  lemma AmountNearGrowth(
    round: real -> real, eps: real, near: real, k: real, m: Metric, prev: Sample, cur: Sample, dev: string)
    requires IsAccurate(round, eps) && RateError(round, near, k)
    requires Advances(prev, cur) ==> Near(Elapsed(round, prev, cur), Seconds(prev, cur), near)
    ensures 0.0 <= WindowGrowth(m, dev)(prev, cur)
    ensures Near(WindowAmount(round, m, dev)(prev, cur), WindowGrowth(m, dev)(prev, cur), k)
  {
    ElapsedPositiveIff(round, eps, prev, cur);
    if Advances(prev, cur) && Has(prev, dev) && Has(cur, dev) {
      ElapsedNear(round, eps, prev, cur);
      RateNearGrowth(round, near, k, m, WindowIO(round, prev, cur, dev).value, Reading(m, cur, dev),
                     Reading(m, prev, dev), Elapsed(round, prev, cur), Seconds(prev, cur));
    } else {
      NearZero(k);
    }
  }

  lemma RateNearGrowth(
    round: real -> real, near: real, k: real, m: Metric, io: DiskIO, now: uint64, was: uint64, e: real, t: real)
    requires RateError(round, near, k) && 0.0 < e && 0.0 < t && Near(e, t, near)
    requires Rate(m, io) == PerSecond(round, now, was, e)
    ensures Near(Amount(m, Some(io), t), SubUint64(now, was) as real, k)
  {
    var x := SubUint64(now, was) as real;
    assert Near(AmountOf(round, x, e, t), x, k);
  }

  /** So a rate, multiplied by the time between the samples, gives back the difference of its
      counters. */
  lemma WindowAmountIs(round: real -> real, eps: real, m: Metric, prev: Sample, cur: Sample, dev: string)
    requires IsAccurate(round, eps)
    ensures 0.0 <= WindowGrowth(m, dev)(prev, cur)
    ensures Near(WindowAmount(round, m, dev)(prev, cur), WindowGrowth(m, dev)(prev, cur), 5.0 * eps)
  {
    RateErrorOf(round, eps);
    if Advances(prev, cur) {
      ElapsedNearly(round, eps, prev, cur);
    }
    AmountNearGrowth(round, eps, 2.0625 * eps, 5.0 * eps, m, prev, cur, dev);
  }

  lemma NearZero(k: real)
    ensures Near(0.0, 0.0, k)
  {
  }

  /** Sums of numbers that are near each other are as near. */
  lemma {:induction false} ChainSumsNear(
    f: (Sample, Sample) -> real, g: (Sample, Sample) -> real, k: real, chain: seq<Sample>)
    requires forall a, b :: 0.0 <= g(a, b) && Near(f(a, b), g(a, b), k)
    ensures 0.0 <= ChainSum(g, chain)
    ensures Near(ChainSum(f, chain), ChainSum(g, chain), k)
  {
    if |chain| < 2 {
      NearZero(k);
    } else {
      var front, prev, cur := chain[..|chain| - 1], chain[|chain| - 2], chain[|chain| - 1];
      ChainSumsNear(f, g, k, front);
      NearSum(ChainSum(f, front), ChainSum(g, front), f(prev, cur), g(prev, cur), k);
    }
  }

  lemma NearSum(y: real, x: real, y': real, x': real, k: real)
    requires 0.0 <= x && 0.0 <= x' && Near(y, x, k) && Near(y', x', k)
    ensures Near(y + y', x + x', k)
  {
    assert k * (x + x') == k * x + k * x';
  }

  lemma ReportedNearGrowth(round: real -> real, eps: real, m: Metric, chain: seq<Sample>, dev: string)
    requires IsAccurate(round, eps)
    ensures Near(ReportedTotal(round, m, chain, dev), ChainSum(WindowGrowth(m, dev), chain), 5.0 * eps)
  {
    forall prev, cur
      ensures 0.0 <= WindowGrowth(m, dev)(prev, cur)
      ensures Near(WindowAmount(round, m, dev)(prev, cur), WindowGrowth(m, dev)(prev, cur), 5.0 * eps)
    {
      WindowAmountIs(round, eps, m, prev, cur, dev);
    }
    ChainSumsNear(WindowAmount(round, m, dev), WindowGrowth(m, dev), 5.0 * eps, chain);
  }

  /** The growth of the counter over the whole chain, less what stood still, plus 2^64 for
      each reported decrease. */
  function Growth(m: Metric, chain: seq<Sample>, dev: string): int
    requires chain != [] && Tracked(chain, dev)
  {
    Reading(m, chain[|chain| - 1], dev) - Reading(m, chain[0], dev)
    - UnreportedTotal(m, chain, dev) + TWO_64 * Decreases(m, chain, dev)
  }

  /** The growth in the reporting windows telescopes, exactly. */
  lemma {:induction false} GrowthTelescopes(m: Metric, chain: seq<Sample>, dev: string)
    requires chain != [] && Tracked(chain, dev)
    ensures ChainSum(WindowGrowth(m, dev), chain) == Growth(m, chain, dev) as real
  {
    if |chain| == 1 {
    } else {
      var front := chain[..|chain| - 1];
      GrowthTelescopes(m, front, dev);
      assert front[|front| - 1] == chain[|chain| - 2];
    }
  }

  /** What the windows report adds up to the growth of the counter, off by no more than the
      rounding of the single rates; exactly so in exact arithmetic. */
  lemma Telescope(round: real -> real, eps: real, m: Metric, chain: seq<Sample>, dev: string)
    requires IsAccurate(round, eps) && chain != [] && Tracked(chain, dev)
    ensures Near(ReportedTotal(round, m, chain, dev), Growth(m, chain, dev) as real, 5.0 * eps)
    ensures eps == 0.0 ==> ReportedTotal(round, m, chain, dev) == Growth(m, chain, dev) as real
  {
    ReportedNearGrowth(round, eps, m, chain, dev);
    GrowthTelescopes(m, chain, dev);
    if eps == 0.0 {
      NearByNothing(ReportedTotal(round, m, chain, dev), Growth(m, chain, dev) as real);
    }
  }

  lemma NearByNothing(y: real, x: real)
    requires Near(y, x, 0.0)
    ensures y == x
  {
  }

  predicate AllAdvance(chain: seq<Sample>) {
    forall i | 0 < i < |chain| :: Advances(chain[i - 1], chain[i])
  }

  predicate NeverDecreases(m: Metric, chain: seq<Sample>, dev: string)
    requires Tracked(chain, dev)
  {
    forall i | 0 < i < |chain| :: Reading(m, chain[i - 1], dev) <= Reading(m, chain[i], dev)
  }

  lemma {:induction false} NothingUnreported(m: Metric, chain: seq<Sample>, dev: string)
    requires Tracked(chain, dev) && AllAdvance(chain)
    ensures UnreportedTotal(m, chain, dev) == 0
  {
    if 2 <= |chain| {
      assert Advances(chain[|chain| - 2], chain[|chain| - 1]);
      NothingUnreported(m, chain[..|chain| - 1], dev);
    }
  }

  lemma {:induction false} NoDecreases(m: Metric, chain: seq<Sample>, dev: string)
    requires Tracked(chain, dev) && NeverDecreases(m, chain, dev)
    ensures Decreases(m, chain, dev) == 0
  {
    if 2 <= |chain| {
      assert Reading(m, chain[|chain| - 2], dev) <= Reading(m, chain[|chain| - 1], dev);
      NoDecreases(m, chain[..|chain| - 1], dev);
    }
  }

  /** With time always advancing, the growth that is reported is the counter's own up to a
      multiple of 2^64, and exactly its own when the counter never goes down. */
  lemma GrowthModulo(m: Metric, chain: seq<Sample>, dev: string)
    requires chain != [] && Tracked(chain, dev)
    ensures var own := Reading(m, chain[|chain| - 1], dev) - Reading(m, chain[0], dev);
      && (AllAdvance(chain) ==> Growth(m, chain, dev) == own + TWO_64 * Decreases(m, chain, dev))
      && (AllAdvance(chain) && NeverDecreases(m, chain, dev) ==> Growth(m, chain, dev) == own)
  {
    if AllAdvance(chain) {
      NothingUnreported(m, chain, dev);
    }
    if NeverDecreases(m, chain, dev) {
      NoDecreases(m, chain, dev);
    }
  }

  /** So with time advancing and a counter that never goes down the reported amounts sum to
      the counter's own growth. */
  lemma RegularTelescope(round: real -> real, eps: real, m: Metric, chain: seq<Sample>, dev: string)
    requires IsAccurate(round, eps) && chain != [] && Tracked(chain, dev)
    requires AllAdvance(chain) && NeverDecreases(m, chain, dev)
    ensures Near(ReportedTotal(round, m, chain, dev),
                 (Reading(m, chain[|chain| - 1], dev) - Reading(m, chain[0], dev)) as real, 5.0 * eps)
  {
    Telescope(round, eps, m, chain, dev);
    GrowthModulo(m, chain, dev);
  }

  // ---- sequential runs ----

  /** The samples behind a run of calls: the starting baseline, then one sample for each
      call whose partition listing succeeds. */
  function Chain(start: Sample, calls: seq<DiskCall>): (chain: seq<Sample>)
    ensures chain != [] && chain[0] == start
    ensures chain[|chain| - 1] == BaselineAfter(start, calls)
  {
    if calls == [] then [start]
    else
      var last := calls[|calls| - 1];
      Chain(start, calls[..|calls| - 1]) + if last.partitions.Err? then [] else [last.Taken()]
  }

  /** The baseline a run of calls leaves behind. */
  function BaselineAfter(start: Sample, calls: seq<DiskCall>): Sample {
    if calls == [] then start else After(BaselineAfter(start, calls[..|calls| - 1]), calls[|calls| - 1])
  }

  /** The I/O rates that a reply shows for a device: those of its first entry. */
  function Shown(reply: Result<seq<DiskEntry>, string>, dev: string): Option<DiskIO> {
    if reply.Err? then None else ShownIn(reply.value, dev)
  }

  function ShownIn(entries: seq<DiskEntry>, dev: string): Option<DiskIO> {
    if entries == [] then None
    else if TrimPrefix(entries[0].device, "/dev/") == dev then entries[0].io
    else ShownIn(entries[1..], dev)
  }

  /** Rate times time, summed over the replies of a run of calls. */
  function ShownTotal(round: real -> real, m: Metric, start: Sample, calls: seq<DiskCall>, dev: string): real
    requires forall c | c in calls :: c.Valid()
  {
    if calls == [] then 0.0
    else
      var front, last := calls[..|calls| - 1], calls[|calls| - 1];
      var prev := BaselineAfter(start, front);
      ShownTotal(round, m, start, front, dev)
      + Amount(m, Shown(Reply(round, prev, last), dev), Seconds(prev, After(prev, last)))
  }

  /** The call lists a real partition on the device and can read its usage. */
  predicate Lists(call: DiskCall, dev: string)
    requires call.Valid()
  {
    call.partitions.Ok? ==>
      exists i | 0 <= i < |call.usages| ::
        Listed(call.partitions.value[i], call.usages[i]) && DeviceName(call.partitions.value[i]) == dev
  }

  /** Every entry carries the rates of its device over the window. */
  lemma {:induction false} EntriesCarryWindowIO(
    round: real -> real, partitions: seq<PartitionStat>, usages: seq<Option<UsageStat>>, prev: Sample, cur: Sample)
    requires |usages| == |partitions|
    ensures forall e | e in Entries(round, partitions, usages, prev, cur) ::
              e.io == WindowIO(round, prev, cur, TrimPrefix(e.device, "/dev/"))
  {
    if partitions != [] {
      var i := |partitions| - 1;
      EntriesCarryWindowIO(round, partitions[..i], usages[..i], prev, cur);
    }
  }

  /** Every real partition with a readable usage has its entry. */
  lemma {:induction false} ListedHasEntry(
    round: real -> real, partitions: seq<PartitionStat>, usages: seq<Option<UsageStat>>, prev: Sample, cur: Sample,
    k: nat)
    requires |usages| == |partitions| && k < |partitions| && Listed(partitions[k], usages[k])
    ensures Entry(round, partitions[k], usages[k].value, prev, cur) in Entries(round, partitions, usages, prev, cur)
  {
    var i := |partitions| - 1;
    if k < i {
      ListedHasEntry(round, partitions[..i], usages[..i], prev, cur, k);
    }
  }

  /** The entry of one partition: its own fields, unless it is pseudo or its usage unreadable. */
  lemma EntriesOfOne(round: real -> real, p: PartitionStat, usage: Option<UsageStat>, prev: Sample, cur: Sample)
    ensures var entries := Entries(round, [p], [usage], prev, cur);
      if p.fstype in [
           "tmpfs", "devtmpfs", "proc", "sysfs", "devpts", "cgroup", "cgroup2", "pstore", "hugetlbfs", "mqueue",
           "debugfs", "tracefs", "securityfs", "fusectl", "configfs", "bpf", "overlay", "squashfs", "efivarfs"]
         || usage.None? then entries == []
      else
        && |entries| == 1
        && entries[0].device == p.device
        && entries[0].mountpoint == p.mountpoint
        && entries[0].totalBytes == usage.value.total
        && entries[0].usedBytes == usage.value.used
        && entries[0].usagePct == usage.value.usedPercent
        && entries[0].io == WindowIO(round, prev, cur, TrimPrefix(p.device, "/dev/"))
  {
    assert [p][..0] == [] && [usage][..0] == [];
  }

  /** The entries of two lists of partitions, one after the other. */
  lemma {:induction false} EntriesAppend(
    round: real -> real, a: seq<PartitionStat>, us: seq<Option<UsageStat>>, b: seq<PartitionStat>,
    vs: seq<Option<UsageStat>>, prev: Sample, cur: Sample)
    requires |us| == |a| && |vs| == |b|
    ensures Entries(round, a + b, us + vs, prev, cur)
         == Entries(round, a, us, prev, cur) + Entries(round, b, vs, prev, cur)
  {
    if b == [] {
      assert a + b == a && us + vs == us;
    } else {
      var i := |b| - 1;
      assert (a + b)[..|a| + i] == a + b[..i] && (us + vs)[..|a| + i] == us + vs[..i];
      EntriesAppend(round, a, us, b[..i], vs[..i], prev, cur);
      ConcatAssociative(
        Entries(round, a, us, prev, cur), Entries(round, b[..i], vs[..i], prev, cur),
        if Listed(b[i], vs[i]) then [Entry(round, b[i], vs[i].value, prev, cur)] else []);
    }
  }

  lemma {:induction false} ShownInIs(entries: seq<DiskEntry>, dev: string, io: Option<DiskIO>)
    requires forall e | e in entries :: TrimPrefix(e.device, "/dev/") == dev ==> e.io == io
    requires exists e | e in entries :: TrimPrefix(e.device, "/dev/") == dev
    ensures ShownIn(entries, dev) == io
  {
    if TrimPrefix(entries[0].device, "/dev/") != dev {
      var e :| e in entries && TrimPrefix(e.device, "/dev/") == dev;
      assert e in entries[1..];
      ShownInIs(entries[1..], dev, io);
    }
  }

  lemma ShownIsWindowIO(round: real -> real, prev: Sample, call: DiskCall, dev: string)
    requires call.Valid() && call.partitions.Ok? && Lists(call, dev)
    ensures Shown(Reply(round, prev, call), dev) == WindowIO(round, prev, call.Taken(), dev)
  {
    var ps, us, cur := call.partitions.value, call.usages, call.Taken();
    var i :| 0 <= i < |us| && Listed(ps[i], us[i]) && DeviceName(ps[i]) == dev;
    EntriesCarryWindowIO(round, ps, us, prev, cur);
    ListedHasEntry(round, ps, us, prev, cur, i);
    ShownInIs(Entries(round, ps, us, prev, cur), dev, WindowIO(round, prev, cur, dev));
  }

  /** What the replies of a run show is what its chain of samples reports; calls that fail
      at the partition listing leave the baseline and the sums alone. */
  lemma {:induction false} ShownIsReported(
    round: real -> real, m: Metric, start: Sample, calls: seq<DiskCall>, dev: string)
    requires forall c | c in calls :: c.Valid() && Lists(c, dev)
    ensures ShownTotal(round, m, start, calls, dev) == ReportedTotal(round, m, Chain(start, calls), dev)
  {
    if calls != [] {
      var front, last := calls[..|calls| - 1], calls[|calls| - 1];
      ShownIsReported(round, m, start, front, dev);
      if last.partitions.Ok? {
        ShownIsWindowIO(round, BaselineAfter(start, front), last, dev);
        ChainSumExtend(WindowAmount(round, m, dev), Chain(start, front), last.Taken());
      } else {
        assert Chain(start, calls) == Chain(start, front);
      }
    }
  }

  /** Telescoping for a sequential run, stated on what the calls return. */
  lemma SequentialTelescope(
    round: real -> real, eps: real, m: Metric, start: Sample, calls: seq<DiskCall>, dev: string)
    requires IsAccurate(round, eps)
    requires forall c | c in calls :: c.Valid() && Lists(c, dev)
    requires Tracked(Chain(start, calls), dev)
    ensures Near(ShownTotal(round, m, start, calls, dev), Growth(m, Chain(start, calls), dev) as real,
                 5.0 * eps)
  {
    ShownIsReported(round, m, start, calls, dev);
    Telescope(round, eps, m, Chain(start, calls), dev);
  }

  /** The growth behind a sequential run: between the module's first and last baseline. */
  lemma SequentialGrowth(m: Metric, start: Sample, calls: seq<DiskCall>, dev: string)
    requires Tracked(Chain(start, calls), dev)
    ensures var chain := Chain(start, calls);
      var own := Reading(m, BaselineAfter(start, calls), dev) - Reading(m, start, dev);
      && (AllAdvance(chain) ==> Growth(m, chain, dev) == own + TWO_64 * Decreases(m, chain, dev))
      && (AllAdvance(chain) && NeverDecreases(m, chain, dev) ==> Growth(m, chain, dev) == own)
  {
    GrowthModulo(m, Chain(start, calls), dev);
  }

  /** A module that has not sampled yet reports no I/O at all, whatever the system answers. */
  lemma FirstCallReportsNothing(round: real -> real, call: DiskCall)
    requires call.Valid() && call.partitions.Ok?
    ensures forall e | e in Reply(round, NO_SAMPLE, call).value :: e.io == None
  {
    EntriesCarryWindowIO(round, call.partitions.value, call.usages, NO_SAMPLE, call.Taken());
    assert Elapsed(round, NO_SAMPLE, call.Taken()) == 0.0;
  }

  /** Hence the run of a fresh module sums up like the run that starts at its first sample. */
  lemma {:induction false} FreshRun(
    round: real -> real, m: Metric, first: DiskCall, rest: seq<DiskCall>, dev: string)
    requires first.Valid() && first.partitions.Ok?
    requires forall c | c in rest :: c.Valid()
    ensures forall c | c in [first] + rest :: c.Valid()
    ensures BaselineAfter(NO_SAMPLE, [first] + rest) == BaselineAfter(first.Taken(), rest)
    ensures ShownTotal(round, m, NO_SAMPLE, [first] + rest, dev) == ShownTotal(round, m, first.Taken(), rest, dev)
  {
    var calls := [first] + rest;
    if rest == [] {
      assert calls[..0] == [] && calls[0] == first;
      assert BaselineAfter(NO_SAMPLE, calls) == After(BaselineAfter(NO_SAMPLE, calls[..0]), first);
      FirstCallReportsNothing(round, first);
      ShownNothing(Reply(round, NO_SAMPLE, first).value, dev);
    } else {
      var front := rest[..|rest| - 1];
      assert calls[..|calls| - 1] == [first] + front;
      FreshRun(round, m, first, front, dev);
    }
  }

  lemma {:induction false} ShownNothing(entries: seq<DiskEntry>, dev: string)
    requires forall e | e in entries :: e.io == None
    ensures ShownIn(entries, dev) == None
  {
    if entries != [] {
      ShownNothing(entries[1..], dev);
    }
  }
}
