/** GetDisk called from several goroutines: the clock reading, the counter reading and
    the baseline swap of a call are separate steps, and only the swap is under the mutex.
    The agent has two callers, the telemetry loop and the command handler; nothing below
    depends on their number. A call whose partition listing fails takes none of these steps. */
module DiskInterleaving {
  import opened Basics
  import opened DiskSampler
  import opened Rounding

  type Caller = nat

  /** Where a caller stands inside GetDisk. The numbers are ghost positions: how many clock
      readings, and how many counter readings, the run had seen before this one. */
  datatype Phase =
    | Idle
    | Timed(now: int, clockPos: nat)
    | Counted(take: Take)

  /** A sample with the positions of its two readings. */
  datatype Take = Take(sample: Sample, clockPos: nat, readPos: nat)

  /** The pair a caller has left the critical section with. */
  datatype Pair = Pair(prev: Sample, cur: Take)

  datatype Event =
    | ReadClock(caller: Caller, now: int)
    | ReadCounters(caller: Caller, counters: Option<Counters>)
    | Swap(caller: Caller)

  datatype State = State(
    phases: map<Caller, Phase>,
    baseline: Sample,
    clocks: seq<int>,                // all clock readings so far
    counterReads: seq<Option<Counters>>,    // all counter readings so far
    pairs: seq<Pair>)                // in the order the lock was held

  const INITIAL := State(map[], NO_SAMPLE, [], [], [])

  function PhaseOf(s: State, c: Caller): Phase {
    if c in s.phases then s.phases[c] else Idle
  }

  predicate Enabled(s: State, e: Event) {
    match e
    case ReadClock(c, _) => PhaseOf(s, c).Idle?
    case ReadCounters(c, _) => PhaseOf(s, c).Timed?
    case Swap(c) => PhaseOf(s, c).Counted?
  }

  function Step(s: State, e: Event): State
    requires Enabled(s, e)
  {
    match e
    case ReadClock(c, now) =>
      s.(phases := s.phases[c := Timed(now, |s.clocks|)], clocks := s.clocks + [now])
    case ReadCounters(c, counters) =>
      var p := PhaseOf(s, c);
      var take := Take(Sample(counters, p.now), p.clockPos, |s.counterReads|);
      s.(phases := s.phases[c := Counted(take)], counterReads := s.counterReads + [counters])
    case Swap(c) =>
      var take := PhaseOf(s, c).take;
      s.(phases := s.phases[c := Idle], baseline := take.sample, pairs := s.pairs + [Pair(s.baseline, take)])
  }

  /** The state a run of events leads to, if each was enabled in turn. */
  function Run(events: seq<Event>): Option<State> {
    if events == [] then Some(INITIAL)
    else
      match Run(events[..|events| - 1])
      case None => None
      case Some(s) =>
        var e := events[|events| - 1];
        if Enabled(s, e) then Some(Step(s, e)) else None
  }

  // ---- every reachable state ----

  /** A take's positions point at the readings it was made of. */
  predicate Grounded(s: State, t: Take) {
    && t.clockPos < |s.clocks| && t.sample.at == s.clocks[t.clockPos]
    && t.readPos < |s.counterReads| && t.sample.counters == s.counterReads[t.readPos]
  }

  /** The sample the lock holder after the first k found. */
  function SampleBefore(pairs: seq<Pair>, k: nat): Sample
    requires k <= |pairs|
  {
    if k == 0 then NO_SAMPLE else pairs[k - 1].cur.sample
  }

  /** Each pair starts where the one before it in lock order ended. */
  predicate Chained(pairs: seq<Pair>) {
    forall k | 0 <= k < |pairs| :: pairs[k].prev == SampleBefore(pairs, k)
  }

  predicate PairsGrounded(s: State) {
    forall k | 0 <= k < |s.pairs| :: Grounded(s, s.pairs[k].cur)
  }

  predicate PhasesGrounded(s: State) {
    && (forall c | c in s.phases && s.phases[c].Timed? ::
          s.phases[c].clockPos < |s.clocks| && s.phases[c].now == s.clocks[s.phases[c].clockPos])
    && (forall c | c in s.phases && s.phases[c].Counted? :: Grounded(s, s.phases[c].take))
  }

  predicate Inv(s: State) {
    && Chained(s.pairs)
    && s.baseline == SampleBefore(s.pairs, |s.pairs|)
    && PairsGrounded(s)
    && PhasesGrounded(s)
  }

  lemma ChainedExtend(pairs: seq<Pair>, p: Pair)
    requires Chained(pairs) && p.prev == SampleBefore(pairs, |pairs|)
    ensures Chained(pairs + [p]) && SampleBefore(pairs + [p], |pairs| + 1) == p.cur.sample
  {
  }

  lemma SwapKeepsInv(s: State, c: Caller)
    requires Inv(s) && Enabled(s, Swap(c))
    ensures Inv(Step(s, Swap(c)))
  {
    ChainedExtend(s.pairs, Pair(s.baseline, PhaseOf(s, c).take));
  }

  lemma StepKeepsInv(s: State, e: Event)
    requires Inv(s) && Enabled(s, e)
    ensures Inv(Step(s, e))
  {
    if e.Swap? {
      SwapKeepsInv(s, e.caller);
    }
  }

  /** For every interleaving of the steps, the (previous, current) pairs form a single chain
      in lock order, and every sample is made of two readings of this run. */
  lemma {:induction false} PairsFormOneChain(events: seq<Event>)
    requires Run(events).Some?
    ensures Inv(Run(events).value)
  {
    if events != [] {
      var front := events[..|events| - 1];
      PairsFormOneChain(front);
      StepKeepsInv(Run(front).value, events[|events| - 1]);
    }
  }

  /** What a pair reports for a device, to its caller. */
  function Reported(round: real -> real, p: Pair, dev: string): Option<DiskIO> {
    WindowIO(round, p.prev, p.cur.sample, dev)
  }

  /** A pair whose time does not advance reports no I/O. */
  lemma StandstillReportsNothing(round: real -> real, eps: real, events: seq<Event>, k: nat, dev: string)
    requires IsAccurate(round, eps)
    requires Run(events).Some? && k < |Run(events).value.pairs|
    requires k == 0 || Run(events).value.pairs[k].cur.sample.at <= Run(events).value.pairs[k - 1].cur.sample.at
    ensures Reported(round, Run(events).value.pairs[k], dev) == None
  {
    var pairs := Run(events).value.pairs;
    PairsFormOneChain(events);
    assert pairs[k].prev == SampleBefore(pairs, k);
    ElapsedPositiveIff(round, eps, pairs[k].prev, pairs[k].cur.sample);
  }

  /** The samples in lock order. */
  function SamplesOf(pairs: seq<Pair>): (samples: seq<Sample>)
    ensures |samples| == |pairs|
    ensures forall k | 0 <= k < |pairs| :: samples[k] == pairs[k].cur.sample
  {
    if pairs == [] then []
    else SamplesOf(pairs[..|pairs| - 1]) + [pairs[|pairs| - 1].cur.sample]
  }

  /** The sum of f over the pairs. */
  function PairsSum(f: (Sample, Sample) -> real, pairs: seq<Pair>): real {
    if pairs == [] then 0.0
    else
      var p := pairs[|pairs| - 1];
      PairsSum(f, pairs[..|pairs| - 1]) + f(p.prev, p.cur.sample)
  }

  /** Rate times time, summed over what the pairs report. */
  function PairsTotal(round: real -> real, m: Metric, pairs: seq<Pair>, dev: string): real {
    PairsSum(WindowAmount(round, m, dev), pairs)
  }

  lemma {:induction false} PairsSumIsChainSum(f: (Sample, Sample) -> real, pairs: seq<Pair>)
    requires Chained(pairs)
    requires forall cur :: f(NO_SAMPLE, cur) == 0.0
    ensures PairsSum(f, pairs) == ChainSum(f, SamplesOf(pairs))
  {
    if pairs != [] {
      var front, p := pairs[..|pairs| - 1], pairs[|pairs| - 1];
      assert forall k | 0 <= k < |front| :: front[k] == pairs[k] && SampleBefore(front, k) == SampleBefore(pairs, k);
      PairsSumIsChainSum(f, front);
      assert p.prev == SampleBefore(pairs, |front|);
      if front != [] {
        ChainSumExtend(f, SamplesOf(front), p.cur.sample);
      }
    }
  }

  /** Whatever the interleaving, the callers together report what one sequential caller
      would report on the samples in lock order. */
  lemma InterleavingIsSequentialInLockOrder(round: real -> real, m: Metric, events: seq<Event>, dev: string)
    requires Run(events).Some?
    ensures PairsTotal(round, m, Run(events).value.pairs, dev)
         == ReportedTotal(round, m, SamplesOf(Run(events).value.pairs), dev)
  {
    PairsFormOneChain(events);
    forall cur ensures WindowAmount(round, m, dev)(NO_SAMPLE, cur) == 0.0 {
      assert Elapsed(round, NO_SAMPLE, cur) == 0.0;
    }
    PairsSumIsChainSum(WindowAmount(round, m, dev), Run(events).value.pairs);
  }

  // ---- windows on a line ----

  /** The window from stamps[k - 1] to stamps[k] contains t. */
  predicate InWindow(stamps: seq<int>, k: int, t: int)
    requires 0 < k < |stamps|
  {
    stamps[k - 1] <= t < stamps[k]
  }

  /** No gap and no overlap: every instant from the first stamp to the last lies in exactly
      one window, and no window reaches outside. */
  ghost predicate Tiles(stamps: seq<int>)
    requires stamps != []
  {
    && stamps[0] <= stamps[|stamps| - 1]
    && forall t: int :: WindowsOver(stamps, t) == if stamps[0] <= t < stamps[|stamps| - 1] then 1 else 0
  }

  /** The number of windows that contain t. */
  function WindowsOver(stamps: seq<int>, t: int): nat {
    if |stamps| < 2 then 0
    else
      WindowsOver(stamps[..|stamps| - 1], t) + if InWindow(stamps, |stamps| - 1, t) then 1 else 0
  }

  /** The number of steps back across t. */
  function StepsBack(stamps: seq<int>, t: int): nat {
    if |stamps| < 2 then 0
    else
      var n := |stamps| - 1;
      StepsBack(stamps[..n], t) + if stamps[n] <= t < stamps[n - 1] then 1 else 0
  }

  predicate Ascending(stamps: seq<int>) {
    forall i | 0 < i < |stamps| :: stamps[i - 1] <= stamps[i]
  }

  /** Every crossing of t upward is a window over it; what goes up and does not come back
      ends above. */
  lemma {:induction false} Crossings(stamps: seq<int>, t: int)
    requires stamps != []
    ensures WindowsOver(stamps, t) - StepsBack(stamps, t)
         == (if t < stamps[|stamps| - 1] then 1 else 0) - (if t < stamps[0] then 1 else 0)
  {
    if 2 <= |stamps| {
      var front := stamps[..|stamps| - 1];
      Crossings(front, t);
      assert front[|front| - 1] == stamps[|stamps| - 2];
    }
  }

  lemma {:induction false} NoStepsBackIffAscending(stamps: seq<int>, i: nat, t: int)
    ensures Ascending(stamps) ==> StepsBack(stamps, t) == 0
    ensures 0 < i < |stamps| && stamps[i] <= t < stamps[i - 1] ==> StepsBack(stamps, t) != 0
  {
    if 2 <= |stamps| {
      NoStepsBackIffAscending(stamps[..|stamps| - 1], i, t);
    }
  }

  lemma {:induction false} AscendingEnds(stamps: seq<int>)
    requires stamps != [] && Ascending(stamps)
    ensures stamps[0] <= stamps[|stamps| - 1]
  {
    if 2 <= |stamps| {
      AscendingEnds(stamps[..|stamps| - 1]);
    }
  }

  /** The windows between consecutive stamps tile the line exactly when the stamps ascend. */
  lemma TilesIffAscending(stamps: seq<int>)
    requires stamps != []
    ensures Tiles(stamps) <==> Ascending(stamps)
  {
    if Ascending(stamps) {
      AscendingEnds(stamps);
      forall t: int
        ensures WindowsOver(stamps, t) == if stamps[0] <= t < stamps[|stamps| - 1] then 1 else 0
      {
        Crossings(stamps, t);
        NoStepsBackIffAscending(stamps, 0, t);
      }
    }
    if Tiles(stamps) {
      forall i | 0 < i < |stamps| ensures stamps[i - 1] <= stamps[i] {
        if stamps[i] < stamps[i - 1] {
          Crossings(stamps, stamps[i]);
          NoStepsBackIffAscending(stamps, i, stamps[i]);
          assert false;
        }
      }
    }
  }

  // ---- the windows of a run ----

  /** The clock values of the pairs, in lock order. */
  function LockClocks(s: State): seq<int> {
    seq(|s.pairs|, k requires 0 <= k < |s.pairs| => s.pairs[k].cur.sample.at)
  }

  /** The pairs were taken in the order in which their clocks were read. */
  predicate LockFollowsClock(s: State) {
    forall j, k | 0 <= j < k < |s.pairs| :: s.pairs[j].cur.clockPos <= s.pairs[k].cur.clockPos
  }

  /** The pairs were taken in the order in which their counters were read. */
  predicate LockFollowsReads(s: State) {
    forall j, k | 0 <= j < k < |s.pairs| :: s.pairs[j].cur.readPos <= s.pairs[k].cur.readPos
  }

  /** The clock never goes back: true of Go's monotonic clock. */
  predicate MonotonicClock(s: State) {
    forall i, j | 0 <= i <= j < |s.clocks| :: s.clocks[i] <= s.clocks[j]
  }

  /** No two readings of the clock are the same, and none is the zero time. */
  predicate StrictClock(s: State) {
    && (forall i | 0 <= i < |s.clocks| :: s.clocks[i] != ZERO_TIME)
    && (forall i, j | 0 <= i < j < |s.clocks| :: s.clocks[i] < s.clocks[j])
  }

  /** The device's counter is in every reading and never goes down. */
  predicate CumulativeCounter(m: Metric, s: State, dev: string) {
    && (forall i | 0 <= i < |s.counterReads| :: Has(Sample(s.counterReads[i], ZERO_TIME), dev))
    && (forall i, j | 0 <= i <= j < |s.counterReads| ::
          Reading(m, Sample(s.counterReads[i], ZERO_TIME), dev)
          <= Reading(m, Sample(s.counterReads[j], ZERO_TIME), dev))
  }

  lemma {:induction false} AscendingPairwise(stamps: seq<int>, j: nat, k: nat)
    requires Ascending(stamps) && j <= k < |stamps|
    ensures stamps[j] <= stamps[k]
  {
    if j < k {
      AscendingPairwise(stamps, j, k - 1);
    }
  }

  /** Swaps taken against clock order are between equal clock values. */
  predicate OnlyTiesCross(s: State) {
    forall j, k | 0 <= j < k < |s.pairs| && s.pairs[k].cur.clockPos < s.pairs[j].cur.clockPos ::
      s.pairs[j].cur.sample.at == s.pairs[k].cur.sample.at
  }

  lemma AscendIffOnlyTiesCross(s: State)
    requires PairsGrounded(s) && MonotonicClock(s)
    ensures Ascending(LockClocks(s)) <==> OnlyTiesCross(s)
  {
    if Ascending(LockClocks(s)) {
      forall j, k | 0 <= j < k < |s.pairs| && s.pairs[k].cur.clockPos < s.pairs[j].cur.clockPos
        ensures s.pairs[j].cur.sample.at == s.pairs[k].cur.sample.at
      {
        AscendingPairwise(LockClocks(s), j, k);
        assert Grounded(s, s.pairs[j].cur) && Grounded(s, s.pairs[k].cur);
      }
    }
    if OnlyTiesCross(s) {
      forall i | 0 < i < |s.pairs| ensures LockClocks(s)[i - 1] <= LockClocks(s)[i] {
        assert Grounded(s, s.pairs[i - 1].cur) && Grounded(s, s.pairs[i].cur);
      }
    }
  }

  /** With a monotonic clock the windows of a run tile it if and only if no two swaps are
      taken against the order of clock readings that differ. */
  lemma TilesIffOnlyTiesCross(events: seq<Event>)
    requires Run(events).Some? && Run(events).value.pairs != [] && MonotonicClock(Run(events).value)
    ensures Tiles(LockClocks(Run(events).value)) <==> OnlyTiesCross(Run(events).value)
  {
    PairsFormOneChain(events);
    AscendIffOnlyTiesCross(Run(events).value);
    TilesIffAscending(LockClocks(Run(events).value));
  }

  /** With a strict clock: if and only if the lock is taken in clock order. */
  lemma TilesIffLockFollowsClock(events: seq<Event>)
    requires Run(events).Some? && Run(events).value.pairs != [] && StrictClock(Run(events).value)
    ensures Tiles(LockClocks(Run(events).value)) <==> LockFollowsClock(Run(events).value)
  {
    var s := Run(events).value;
    PairsFormOneChain(events);
    TilesIffOnlyTiesCross(events);
    forall j, k | 0 <= j < k < |s.pairs| && s.pairs[k].cur.clockPos < s.pairs[j].cur.clockPos
      ensures s.pairs[j].cur.sample.at != s.pairs[k].cur.sample.at
    {
      assert Grounded(s, s.pairs[j].cur) && Grounded(s, s.pairs[k].cur);
    }
  }

  /** When the lock is taken in clock order, the windows of the run tile it. */
  lemma ClockOrderTiles(events: seq<Event>)
    requires Run(events).Some?
    requires var s := Run(events).value; MonotonicClock(s) && LockFollowsClock(s) && s.pairs != []
    ensures Tiles(LockClocks(Run(events).value))
  {
    TilesIffOnlyTiesCross(events);
  }

  // ---- each clock reading is used once ----

  /** The position of the clock reading a caller holds. */
  function Held(p: Phase): Option<nat> {
    match p
    case Idle => None
    case Timed(_, clockPos) => Some(clockPos)
    case Counted(take) => Some(take.clockPos)
  }

  predicate HeldOnce(s: State) {
    && (forall c | c in s.phases && Held(s.phases[c]).Some? :: Held(s.phases[c]).value < |s.clocks|)
    && (forall c, d | c in s.phases && d in s.phases && c != d && Held(s.phases[c]).Some? ::
          Held(s.phases[c]) != Held(s.phases[d]))
  }

  predicate UsedOnce(s: State) {
    && (forall k | 0 <= k < |s.pairs| :: s.pairs[k].cur.clockPos < |s.clocks|)
    && (forall c, k | c in s.phases && 0 <= k < |s.pairs| :: Held(s.phases[c]) != Some(s.pairs[k].cur.clockPos))
    && (forall j, k | 0 <= j < k < |s.pairs| :: s.pairs[j].cur.clockPos != s.pairs[k].cur.clockPos)
  }

  lemma StepHoldsOnce(s: State, e: Event)
    requires HeldOnce(s) && Enabled(s, e)
    ensures HeldOnce(Step(s, e))
  {
  }

  lemma StepUsesOnce(s: State, e: Event)
    requires HeldOnce(s) && UsedOnce(s) && Enabled(s, e)
    ensures UsedOnce(Step(s, e))
  {
  }

  lemma {:induction false} ClocksUsedOnce(events: seq<Event>)
    requires Run(events).Some?
    ensures HeldOnce(Run(events).value) && UsedOnce(Run(events).value)
  {
    if events != [] {
      var front := events[..|events| - 1];
      ClocksUsedOnce(front);
      StepHoldsOnce(Run(front).value, events[|events| - 1]);
      StepUsesOnce(Run(front).value, events[|events| - 1]);
    }
  }

  lemma StrictlyAdvances(s: State)
    requires PairsGrounded(s) && UsedOnce(s) && StrictClock(s) && LockFollowsClock(s)
    ensures AllAdvance(SamplesOf(s.pairs))
  {
    forall i | 0 < i < |s.pairs| ensures Advances(SamplesOf(s.pairs)[i - 1], SamplesOf(s.pairs)[i]) {
      assert Grounded(s, s.pairs[i - 1].cur) && Grounded(s, s.pairs[i].cur);
      assert s.pairs[i - 1].cur.clockPos < s.pairs[i].cur.clockPos;
    }
  }

  // ---- conservation over all callers ----

  /** When the lock is taken in both orders and the clock is strict, the windows tile the
      run and the callers together report what the counter grew by between the first and
      the last sample, up to the rounding of the single rates. */
  lemma AgreeingOrdersConserve(round: real -> real, eps: real, m: Metric, events: seq<Event>, dev: string)
    requires IsAccurate(round, eps) && Run(events).Some? && Run(events).value.pairs != []
    requires var s := Run(events).value;
      StrictClock(s) && LockFollowsClock(s) && LockFollowsReads(s) && CumulativeCounter(m, s, dev)
    ensures var s := Run(events).value;
      var chain := SamplesOf(s.pairs);
      && Tiles(LockClocks(s))
      && AllAdvance(chain) && Tracked(chain, dev)
      && Near(PairsTotal(round, m, s.pairs, dev),
              (Reading(m, chain[|chain| - 1], dev) - Reading(m, chain[0], dev)) as real, 5.0 * eps)
  {
    var s := Run(events).value;
    PairsFormOneChain(events);
    ClocksUsedOnce(events);
    TilesIffLockFollowsClock(events);
    StrictlyAdvances(s);
    ReadOrderKept(m, s, dev);
    InterleavingIsSequentialInLockOrder(round, m, events, dev);
    RegularTelescope(round, eps, m, SamplesOf(s.pairs), dev);
  }

  /** With counter order alone no pair sees a counter go down, and what is missing is the
      growth in windows in which the clock stood still or ran back. */
  lemma CounterOrderConserves(round: real -> real, eps: real, m: Metric, events: seq<Event>, dev: string)
    requires IsAccurate(round, eps) && Run(events).Some? && Run(events).value.pairs != []
    requires LockFollowsReads(Run(events).value) && CumulativeCounter(m, Run(events).value, dev)
    ensures var pairs := Run(events).value.pairs;
      var chain := SamplesOf(pairs);
      && Tracked(chain, dev)
      && NeverDecreases(m, chain, dev)
      && var grown := Reading(m, chain[|chain| - 1], dev) - Reading(m, chain[0], dev);
         Near(PairsTotal(round, m, pairs, dev), (grown - UnreportedTotal(m, chain, dev)) as real, 5.0 * eps)
  {
    var chain := SamplesOf(Run(events).value.pairs);
    PairsFormOneChain(events);
    ReadOrderKept(m, Run(events).value, dev);
    InterleavingIsSequentialInLockOrder(round, m, events, dev);
    Telescope(round, eps, m, chain, dev);
    NoDecreases(m, chain, dev);
  }

  lemma ReadOrderKept(m: Metric, s: State, dev: string)
    requires PairsGrounded(s) && LockFollowsReads(s) && CumulativeCounter(m, s, dev)
    ensures Tracked(SamplesOf(s.pairs), dev) && NeverDecreases(m, SamplesOf(s.pairs), dev)
  {
    var chain := SamplesOf(s.pairs);
    forall k | 0 <= k < |chain| ensures Has(chain[k], dev) {
      ReadingOfPair(m, s, k, dev);
    }
    forall k | 0 < k < |chain| ensures Reading(m, chain[k - 1], dev) <= Reading(m, chain[k], dev) {
      ReadingsAscend(m, s, k, dev);
    }
  }

  lemma ReadingsAscend(m: Metric, s: State, k: nat, dev: string)
    requires PairsGrounded(s) && LockFollowsReads(s) && CumulativeCounter(m, s, dev) && 0 < k < |s.pairs|
    ensures Has(s.pairs[k - 1].cur.sample, dev) && Has(s.pairs[k].cur.sample, dev)
    ensures Reading(m, s.pairs[k - 1].cur.sample, dev) <= Reading(m, s.pairs[k].cur.sample, dev)
  {
    ReadingOfPair(m, s, k - 1, dev);
    ReadingOfPair(m, s, k, dev);
    assert s.pairs[k - 1].cur.readPos <= s.pairs[k].cur.readPos;
  }

  lemma ReadingOfPair(m: Metric, s: State, k: nat, dev: string)
    requires PairsGrounded(s) && CumulativeCounter(m, s, dev) && k < |s.pairs|
    ensures s.pairs[k].cur.readPos < |s.counterReads|
    ensures Has(s.pairs[k].cur.sample, dev)
    ensures Has(Sample(s.counterReads[s.pairs[k].cur.readPos], ZERO_TIME), dev)
    ensures Reading(m, s.pairs[k].cur.sample, dev)
         == Reading(m, Sample(s.counterReads[s.pairs[k].cur.readPos], ZERO_TIME), dev)
  {
    assert Grounded(s, s.pairs[k].cur);
  }

  // ---- what a caller can know beforehand ----

  /** No call of GetDisk is under way. */
  predicate Quiet(s: State) {
    forall c | c in s.phases :: s.phases[c].Idle?
  }

  /** Every call began while no other was under way. */
  predicate OneAtATime(events: seq<Event>)
    requires Run(events).Some?
  {
    events == []
    || (var front := events[..|events| - 1];
        OneAtATime(front) && (events[|events| - 1].ReadClock? ==> Quiet(Run(front).value)))
  }

  /** At most one call is under way. */
  predicate Alone(phases: map<Caller, Phase>) {
    forall c, d | c in phases && d in phases && c != d :: phases[c].Idle? || phases[d].Idle?
  }

  /** The readings a caller holds are later than those of all pairs. */
  predicate HoldsLater(pairs: seq<Pair>, p: Phase) {
    && (Held(p).Some? ==> forall k | 0 <= k < |pairs| :: pairs[k].cur.clockPos < Held(p).value)
    && (p.Counted? ==> forall k | 0 <= k < |pairs| :: pairs[k].cur.readPos < p.take.readPos)
  }

  predicate AllHoldLater(phases: map<Caller, Phase>, pairs: seq<Pair>) {
    forall c | c in phases :: HoldsLater(pairs, phases[c])
  }

  predicate InTurn(s: State) {
    && Alone(s.phases)
    && LockFollowsClock(s)
    && LockFollowsReads(s)
    && AllHoldLater(s.phases, s.pairs)
  }

  lemma PhaseChanges(phases: map<Caller, Phase>, pairs: seq<Pair>, c: Caller, p: Phase)
    requires Alone(phases) && AllHoldLater(phases, pairs) && HoldsLater(pairs, p)
    requires (c in phases && !phases[c].Idle?) || forall d | d in phases :: phases[d].Idle?
    ensures Alone(phases[c := p]) && AllHoldLater(phases[c := p], pairs)
  {
  }

  lemma ReadClockKeepsTurn(s: State, c: Caller, now: int)
    requires Inv(s) && InTurn(s) && Enabled(s, ReadClock(c, now)) && Quiet(s)
    ensures InTurn(Step(s, ReadClock(c, now)))
  {
    assert forall k | 0 <= k < |s.pairs| :: Grounded(s, s.pairs[k].cur);
    PhaseChanges(s.phases, s.pairs, c, Timed(now, |s.clocks|));
  }

  lemma ReadCountersKeepsTurn(s: State, c: Caller, counters: Option<Counters>)
    requires Inv(s) && InTurn(s) && Enabled(s, ReadCounters(c, counters))
    ensures InTurn(Step(s, ReadCounters(c, counters)))
  {
    var p := s.phases[c];
    var take := Take(Sample(counters, p.now), p.clockPos, |s.counterReads|);
    CountedHoldsLater(s, p, take);
    PhaseChanges(s.phases, s.pairs, c, Counted(take));
  }

  lemma CountedHoldsLater(s: State, p: Phase, take: Take)
    requires PairsGrounded(s) && HoldsLater(s.pairs, p)
    requires p.Timed? && take.clockPos == p.clockPos && take.readPos == |s.counterReads|
    ensures HoldsLater(s.pairs, Counted(take))
  {
    assert forall k | 0 <= k < |s.pairs| :: Grounded(s, s.pairs[k].cur);
  }

  lemma SwapKeepsTurn(s: State, c: Caller)
    requires InTurn(s) && Enabled(s, Swap(c))
    ensures InTurn(Step(s, Swap(c)))
  {
    assert HoldsLater(s.pairs, s.phases[c]);
  }

  /** A call that runs by itself takes the three steps one after the other: it leaves the
      baseline that the sequential call leaves, and its pair is the window of that call. */
  lemma CallIsThreeSteps(events: seq<Event>, s: State, c: Caller, call: DiskCall)
    requires Run(events) == Some(s) && PhaseOf(s, c).Idle? && call.Valid() && call.partitions.Ok?
    ensures Run(events + [ReadClock(c, call.now)] + [ReadCounters(c, call.counters)] + [Swap(c)]).Some?
    ensures var t := Run(events + [ReadClock(c, call.now)] + [ReadCounters(c, call.counters)] + [Swap(c)]).value;
      && t.baseline == After(s.baseline, call)
      && |t.pairs| == |s.pairs| + 1 && t.pairs[..|s.pairs|] == s.pairs
      && t.pairs[|s.pairs|].prev == s.baseline
      && t.pairs[|s.pairs|].cur.sample == Sample(call.counters, call.now)
      && PhaseOf(t, c).Idle?
  {
    ExtendByReadings(events, s, c, call.now, call.counters);
    var read := events + [ReadClock(c, call.now)] + [ReadCounters(c, call.counters)];
    Extend(read, WithReadings(s, c, call.now, call.counters), Swap(c));
  }

  /** Calls that do not overlap take the lock in the order of both readings. */
  lemma {:induction false} OneAtATimeInTurn(events: seq<Event>)
    requires Run(events).Some? && OneAtATime(events)
    ensures InTurn(Run(events).value)
  {
    if events != [] {
      var front, e := events[..|events| - 1], events[|events| - 1];
      OneAtATimeInTurn(front);
      PairsFormOneChain(front);
      match e {
        case ReadClock(c, now) => ReadClockKeepsTurn(Run(front).value, c, now);
        case ReadCounters(c, counters) => ReadCountersKeepsTurn(Run(front).value, c, counters);
        case Swap(c) => SwapKeepsTurn(Run(front).value, c);
      }
    }
  }

  /** So with a strict clock they tile the run and report the growth of the counter. */
  lemma CallsInTurnConserve(round: real -> real, eps: real, m: Metric, events: seq<Event>, dev: string)
    requires IsAccurate(round, eps) && Run(events).Some? && OneAtATime(events) && Run(events).value.pairs != []
    requires StrictClock(Run(events).value) && CumulativeCounter(m, Run(events).value, dev)
    ensures var s := Run(events).value;
      var chain := SamplesOf(s.pairs);
      && Tiles(LockClocks(s))
      && Tracked(chain, dev)
      && Near(PairsTotal(round, m, s.pairs, dev),
              (Reading(m, chain[|chain| - 1], dev) - Reading(m, chain[0], dev)) as real, 5.0 * eps)
  {
    OneAtATimeInTurn(events);
    AgreeingOrdersConserve(round, eps, m, events, dev);
  }

  lemma Extend(before: seq<Event>, s: State, e: Event)
    requires Run(before) == Some(s) && Enabled(s, e)
    ensures Run(before + [e]) == Some(Step(s, e))
  {
    assert (before + [e])[..|before|] == before;
  }

  /** No further call begins. */
  predicate NoneBegins(rest: seq<Event>) {
    forall e | e in rest :: !e.ReadClock?
  }

  /** The calls under way after before can finish against clock order. */
  ghost predicate CanCross(before: seq<Event>) {
    exists rest: seq<Event> ::
      NoneBegins(rest) && Run(before + rest).Some? && !LockFollowsClock(Run(before + rest).value)
  }

  /** Caller c finishes its call. */
  lemma Finishes(before: seq<Event>, s: State, c: Caller) returns (rest: seq<Event>, t: State)
    requires Run(before) == Some(s) && Held(PhaseOf(s, c)).Some?
    ensures NoneBegins(rest) && Run(before + rest) == Some(t)
    ensures |t.pairs| == |s.pairs| + 1 && t.pairs[..|s.pairs|] == s.pairs
    ensures t.pairs[|s.pairs|].cur.clockPos == Held(PhaseOf(s, c)).value
    ensures forall d | d != c :: PhaseOf(t, d) == PhaseOf(s, d)
    ensures t.clocks == s.clocks
  {
    rest, t := [], s;
    assert before + rest == before;
    if PhaseOf(s, c).Timed? {
      Extend(before, s, ReadCounters(c, None));
      rest, t := [ReadCounters(c, None)], Step(s, ReadCounters(c, None));
    }
    Extend(before + rest, t, Swap(c));
    assert before + (rest + [Swap(c)]) == before + rest + [Swap(c)];
    rest, t := rest + [Swap(c)], Step(t, Swap(c));
  }

  /** Of two calls under way the one that read the clock later can finish first. */
  lemma LaterFirst(before: seq<Event>, s: State, earlier: Caller, later: Caller)
    requires Run(before) == Some(s) && earlier != later
    requires Held(PhaseOf(s, earlier)).Some? && Held(PhaseOf(s, later)).Some?
    requires Held(PhaseOf(s, earlier)).value < Held(PhaseOf(s, later)).value
    ensures CanCross(before)
  {
    var first, t := Finishes(before, s, later);
    var second, u := Finishes(before + first, t, earlier);
    assert before + first + second == before + (first + second);
    var n := |s.pairs|;
    assert u.pairs[n] == u.pairs[..n + 1][n] == t.pairs[n];
    assert u.pairs[n + 1].cur.clockPos < u.pairs[n].cur.clockPos;
    assert NoneBegins(first + second);
  }

  /** So whenever two calls are under way in any run, clock order can be broken. */
  lemma OverlapCanCross(before: seq<Event>, c: Caller, d: Caller)
    requires Run(before).Some? && c != d
    requires Held(PhaseOf(Run(before).value, c)).Some? && Held(PhaseOf(Run(before).value, d)).Some?
    ensures CanCross(before)
  {
    var s := Run(before).value;
    ClocksUsedOnce(before);
    if Held(PhaseOf(s, c)).value < Held(PhaseOf(s, d)).value {
      LaterFirst(before, s, c, d);
    } else {
      LaterFirst(before, s, d, c);
    }
  }

  lemma {:induction false} NoneBeginsKeepsTurn(before: seq<Event>, rest: seq<Event>)
    requires Run(before).Some? && OneAtATime(before) && NoneBegins(rest) && Run(before + rest).Some?
    ensures OneAtATime(before + rest)
  {
    if rest == [] {
      assert before + rest == before;
    } else {
      var front, e := rest[..|rest| - 1], rest[|rest| - 1];
      assert e in rest;
      assert (before + rest)[..|before + rest| - 1] == before + front;
      NoneBeginsKeepsTurn(before, front);
    }
  }

  /** A call that begins after calls in turn can come to break clock order, without a further
      call, if and only if another one is under way at that moment. */
  lemma CallCanCrossIff(before: seq<Event>, c: Caller, now: int)
    requires Run(before).Some? && OneAtATime(before) && PhaseOf(Run(before).value, c).Idle?
    ensures CanCross(before + [ReadClock(c, now)]) <==> !Quiet(Run(before).value)
  {
    var s := Run(before).value;
    var begun := before + [ReadClock(c, now)];
    Extend(before, s, ReadClock(c, now));
    if Quiet(s) {
      assert begun[..|before|] == before;
      assert OneAtATime(begun);
      forall rest: seq<Event> | NoneBegins(rest) && Run(begun + rest).Some?
        ensures LockFollowsClock(Run(begun + rest).value)
      {
        NoneBeginsKeepsTurn(begun, rest);
        OneAtATimeInTurn(begun + rest);
      }
    } else {
      var d :| d in s.phases && !s.phases[d].Idle?;
      OverlapCanCross(begun, d, c);
    }
  }

  /** The calls under way after before can finish so that the windows do not tile the run. */
  ghost predicate CanMiss(before: seq<Event>) {
    exists rest: seq<Event> ::
      && NoneBegins(rest)
      && Run(before + rest).Some?
      && var s := Run(before + rest).value; s.pairs != [] && !Tiles(LockClocks(s))
  }

  lemma {:induction false} NoneBeginsKeepsClocks(before: seq<Event>, rest: seq<Event>)
    requires Run(before).Some? && NoneBegins(rest) && Run(before + rest).Some?
    ensures Run(before + rest).value.clocks == Run(before).value.clocks
  {
    if rest == [] {
      assert before + rest == before;
    } else {
      var front, e := rest[..|rest| - 1], rest[|rest| - 1];
      assert e in rest;
      assert (before + rest)[..|before + rest| - 1] == before + front;
      NoneBeginsKeepsClocks(before, front);
    }
  }

  lemma MissIffCross(before: seq<Event>)
    requires Run(before).Some? && StrictClock(Run(before).value)
    ensures CanMiss(before) <==> CanCross(before)
  {
    forall rest: seq<Event> | NoneBegins(rest) && Run(before + rest).Some?
      ensures var s := Run(before + rest).value;
        s.pairs != [] && !Tiles(LockClocks(s)) <==> !LockFollowsClock(s)
    {
      NoneBeginsKeepsClocks(before, rest);
      if Run(before + rest).value.pairs != [] {
        TilesIffLockFollowsClock(before + rest);
      }
    }
  }

  /** With a strict clock that is to say: the windows can come not to tile the run. */
  lemma CallCanMissIff(before: seq<Event>, c: Caller, now: int)
    requires Run(before).Some? && OneAtATime(before) && PhaseOf(Run(before).value, c).Idle?
    requires StrictClock(Step(Run(before).value, ReadClock(c, now)))
    ensures CanMiss(before + [ReadClock(c, now)]) <==> !Quiet(Run(before).value)
  {
    Extend(before, Run(before).value, ReadClock(c, now));
    MissIffCross(before + [ReadClock(c, now)]);
    CallCanCrossIff(before, c, now);
  }

  // ---- the agreement is needed ----

  const DEV: string := "xvda"

  function Read(bytes: uint64): Option<Counters> {
    Some(map[DEV := IOCountersStat(bytes, 0, 0, 0, 0)])
  }

  /** Caller c reads the clock and then the counters. */
  function WithReadings(s: State, c: Caller, now: int, counters: Option<Counters>): State {
    var take := Take(Sample(counters, now), |s.clocks|, |s.counterReads|);
    s.(phases := s.phases[c := Counted(take)], clocks := s.clocks + [now], counterReads := s.counterReads + [counters])
  }

  lemma ExtendByReadings(before: seq<Event>, s: State, c: Caller, now: int, counters: Option<Counters>)
    requires Run(before) == Some(s) && PhaseOf(s, c).Idle?
    ensures Run(before + [ReadClock(c, now)] + [ReadCounters(c, counters)]) == Some(WithReadings(s, c, now, counters))
  {
    Extend(before, s, ReadClock(c, now));
    var s' := Step(s, ReadClock(c, now));
    Extend(before + [ReadClock(c, now)], s', ReadCounters(c, counters));
    assert Step(s', ReadCounters(c, counters)).phases == WithReadings(s, c, now, counters).phases;
  }

  const LATE_LOCK: seq<Pair> := [
    Pair(NO_SAMPLE, Take(Sample(Read(300), 5), 1, 1)),
    Pair(Sample(Read(300), 5), Take(Sample(Read(100), 1), 0, 0)),
    Pair(Sample(Read(100), 1), Take(Sample(Read(500), 9), 2, 2))
  ]

  /** Both callers have read the clock and the counters, caller 0 first. */
  lemma BothRead() returns (events: seq<Event>, s: State)
    ensures Run(events) == Some(s)
    ensures s.clocks == [1, 5] && s.counterReads == [Read(100), Read(300)]
    ensures s.pairs == [] && s.baseline == NO_SAMPLE
    ensures PhaseOf(s, 0) == Counted(Take(Sample(Read(100), 1), 0, 0))
    ensures PhaseOf(s, 1) == Counted(Take(Sample(Read(300), 5), 1, 1))
  {
    events, s := [], INITIAL;
    ExtendByReadings(events, s, 0, 1, Read(100));
    events, s := events + [ReadClock(0, 1)] + [ReadCounters(0, Read(100))], WithReadings(s, 0, 1, Read(100));
    ExtendByReadings(events, s, 1, 5, Read(300));
    events, s := events + [ReadClock(1, 5)] + [ReadCounters(1, Read(300))], WithReadings(s, 1, 5, Read(300));
  }

  lemma LateLockRun() returns (events: seq<Event>, s: State)
    ensures Run(events) == Some(s)
    ensures s.clocks == [1, 5, 9]
    ensures s.counterReads == [Read(100), Read(300), Read(500)]
    ensures s.pairs == LATE_LOCK
  {
    events, s := BothRead();
    Extend(events, s, Swap(1));
    events, s := events + [Swap(1)], Step(s, Swap(1));
    Extend(events, s, Swap(0));
    events, s := events + [Swap(0)], Step(s, Swap(0));
    ExtendByReadings(events, s, 1, 9, Read(500));
    events, s := events + [ReadClock(1, 9)] + [ReadCounters(1, Read(500))], WithReadings(s, 1, 9, Read(500));
    Extend(events, s, Swap(1));
    events, s := events + [Swap(1)], Step(s, Swap(1));
  }

  lemma LateLockReadings(s: State)
    requires s.clocks == [1, 5, 9] && s.counterReads == [Read(100), Read(300), Read(500)]
    ensures StrictClock(s) && CumulativeCounter(ReadBytes, s, DEV)
  {
  }

  lemma LateLockOrder(s: State)
    requires s.pairs == LATE_LOCK
    ensures !LockFollowsClock(s) && !Tiles(LockClocks(s))
  {
    assert s.pairs[1].cur.clockPos < s.pairs[0].cur.clockPos;
    TilesIffAscending(LockClocks(s));
    assert LockClocks(s)[1] < LockClocks(s)[0];
  }

  /** Caller 0 reads the clock first but takes the lock last: time runs back, the pair of
      caller 0 reports nothing, and a later window covers old ground again. So without lock
      order following clock order the windows do not tile, although the clock is strict
      and every counter reading grows; 200 bytes of growth are reported as 400. */
  lemma LateLockDoesNotTile(round: real -> real, eps: real) returns (events: seq<Event>, s: State)
    requires IsAccurate(round, eps)
    ensures Run(events) == Some(s)
    ensures StrictClock(s) && CumulativeCounter(ReadBytes, s, DEV)
    ensures s.pairs == LATE_LOCK
    ensures !LockFollowsClock(s) && !Tiles(LockClocks(s))
    ensures Reported(round, s.pairs[1], DEV) == None
    ensures Near(PairsTotal(round, ReadBytes, s.pairs, DEV), 400.0, 5.0 * eps)
  {
    events, s := LateLockRun();
    LateLockTotals(round, eps);
    LateLockReadings(s);
    LateLockOrder(s);
  }

  lemma PairsSumExtend(f: (Sample, Sample) -> real, front: seq<Pair>, p: Pair)
    ensures PairsSum(f, front + [p]) == PairsSum(f, front) + f(p.prev, p.cur.sample)
  {
    assert (front + [p])[..|front|] == front;
  }

  lemma SilentWindow(round: real -> real, eps: real, prev: Sample, cur: Sample)
    requires IsAccurate(round, eps) && !Advances(prev, cur)
    ensures WindowIO(round, prev, cur, DEV) == None
    ensures WindowAmount(round, ReadBytes, DEV)(prev, cur) == 0.0
  {
    ElapsedPositiveIff(round, eps, prev, cur);
  }

  lemma PairsSumOfThree(f: (Sample, Sample) -> real, a: Pair, b: Pair, c: Pair)
    ensures PairsSum(f, [a, b]) == f(a.prev, a.cur.sample) + f(b.prev, b.cur.sample)
    ensures PairsSum(f, [a, b, c])
         == f(a.prev, a.cur.sample) + f(b.prev, b.cur.sample) + f(c.prev, c.cur.sample)
  {
    assert [a] == [] + [a] && [a, b] == [a] + [b] && [a, b, c] == [a, b] + [c];
    PairsSumExtend(f, [], a);
    PairsSumExtend(f, [a], b);
    PairsSumExtend(f, [a, b], c);
  }

  lemma OneLoudWindow(f: (Sample, Sample) -> real, a: Pair, b: Pair, c: Pair, x: real, k: real)
    requires f(a.prev, a.cur.sample) == f(b.prev, b.cur.sample) == 0.0
    requires Near(f(c.prev, c.cur.sample), x, k)
    ensures Near(PairsSum(f, [a, b, c]), x, k)
  {
    PairsSumOfThree(f, a, b, c);
  }

  lemma LateLockGrowth()
    ensures WindowGrowth(ReadBytes, DEV)(LATE_LOCK[2].prev, LATE_LOCK[2].cur.sample) == 400.0
  {
  }

  lemma LateLockTotals(round: real -> real, eps: real)
    requires IsAccurate(round, eps)
    ensures Reported(round, LATE_LOCK[1], DEV) == None
    ensures Near(PairsTotal(round, ReadBytes, LATE_LOCK, DEV), 400.0, 5.0 * eps)
  {
    var a, b, c := LATE_LOCK[0], LATE_LOCK[1], LATE_LOCK[2];
    SilentWindow(round, eps, a.prev, a.cur.sample);
    SilentWindow(round, eps, b.prev, b.cur.sample);
    WindowAmountIs(round, eps, ReadBytes, c.prev, c.cur.sample, DEV);
    LateLockGrowth();
    OneLoudWindow(WindowAmount(round, ReadBytes, DEV), a, b, c, 400.0, 5.0 * eps);
    assert LATE_LOCK == [a, b, c];
  }

  const CROSSED_READS: seq<Pair> := [
    Pair(NO_SAMPLE, Take(Sample(Read(200), 1), 0, 1)),
    Pair(Sample(Read(200), 1), Take(Sample(Read(100), 2), 1, 0))
  ]

  lemma CrossedReadsRun() returns (events: seq<Event>, s: State)
    ensures Run(events) == Some(s)
    ensures s.clocks == [1, 2]
    ensures s.counterReads == [Read(100), Read(200)]
    ensures s.pairs == CROSSED_READS
  {
    events, s := [], INITIAL;
    Extend(events, s, ReadClock(0, 1));
    events, s := events + [ReadClock(0, 1)], Step(s, ReadClock(0, 1));
    ExtendByReadings(events, s, 1, 2, Read(100));
    events, s := events + [ReadClock(1, 2)] + [ReadCounters(1, Read(100))], WithReadings(s, 1, 2, Read(100));
    Extend(events, s, ReadCounters(0, Read(200)));
    events, s := events + [ReadCounters(0, Read(200))], Step(s, ReadCounters(0, Read(200)));
    Extend(events, s, Swap(0));
    events, s := events + [Swap(0)], Step(s, Swap(0));
    Extend(events, s, Swap(1));
    events, s := events + [Swap(1)], Step(s, Swap(1));
  }

  /** Caller 1 reads the clock last but the counters first: time advances from caller 0's
      lock to caller 1's, while the counter seems to go down. So without lock order
      following counter order a pair reports almost 2^64 bytes. */
  lemma CrossedReadsWrapAround(round: real -> real, eps: real) returns (events: seq<Event>, s: State)
    requires IsAccurate(round, eps)
    ensures Run(events) == Some(s)
    ensures StrictClock(s) && CumulativeCounter(ReadBytes, s, DEV)
    ensures s.pairs == CROSSED_READS
    ensures LockFollowsClock(s) && !LockFollowsReads(s)
    ensures Near(PairsTotal(round, ReadBytes, s.pairs, DEV), (TWO_64 - 100) as real, 5.0 * eps)
  {
    events, s := CrossedReadsRun();
    CrossedReadsTotal(round, eps);
    assert s.pairs[1].cur.readPos < s.pairs[0].cur.readPos;
  }

  lemma CrossedGrowth()
    ensures WindowGrowth(ReadBytes, DEV)(CROSSED_READS[1].prev, CROSSED_READS[1].cur.sample) == (TWO_64 - 100) as real
  {
  }

  lemma CrossedReadsTotal(round: real -> real, eps: real)
    requires IsAccurate(round, eps)
    ensures Near(PairsTotal(round, ReadBytes, CROSSED_READS, DEV), (TWO_64 - 100) as real, 5.0 * eps)
  {
    var a, b := CROSSED_READS[0], CROSSED_READS[1];
    SilentWindow(round, eps, a.prev, a.cur.sample);
    WindowAmountIs(round, eps, ReadBytes, b.prev, b.cur.sample, DEV);
    CrossedGrowth();
    PairsSumOfThree(WindowAmount(round, ReadBytes, DEV), a, b, b);
    assert CROSSED_READS == [a, b];
  }
}
