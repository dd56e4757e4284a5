/** The telemetry interval hand-off: SetTelemetryInterval, called by the one serial
    command handler, against the select loop of telemetryLoop, over a channel that
    holds one value. */
module IntervalHandoff {
  import opened Basics
  import opened Durations
  import opened Rounding

  const MIN_INTERVAL: Duration := SECOND
  const DEFAULT_INTERVAL: Duration := 30 * SECOND

  function Clamp(d: Duration): (r: Duration)
    ensures MIN_INTERVAL <= r && d <= r
    ensures r == d || r == MIN_INTERVAL
  {
    if d < MIN_INTERVAL then MIN_INTERVAL else d
  }

  /** The loop's first period, from the configuration. */
  function StartupInterval(configured: Duration): (d: Duration)
    ensures 0 < d
    ensures 0 < configured ==> d == configured
    ensures configured <= 0 ==> d == 30_000_000_000
  {
    if configured <= 0 then DEFAULT_INTERVAL else configured
  }

  /** A clamped interval on its way, tagged with the number of the call it came from. */
  datatype Request = Request(id: nat, d: Duration)

  // ---- the two goroutines as one transition system ----

  /** Where the command handler stands in SetTelemetryInterval. */
  datatype Setter =
    | Idle
    | Choosing(r: Request)    // at the select
    | Draining(r: Request)    // the channel was full: about to receive the pending value
    | Resending(r: Request)   // has dropped a value: about to send

  /** Where telemetryLoop stands. */
  datatype Loop =
    | NotStarted
    | Starting                // sending the first snapshot, no ticker yet
    | Waiting                 // at the select
    | Got(r: Request)         // has received a value, not yet reset the ticker
    | Sending
    | Exited

  datatype State = State(
    setter: Setter,
    loop: Loop,
    channel: Option<Request>,
    period: Option<Duration>,     // the ticker's period, once there is a ticker
    cancelled: bool,
    requested: seq<Request>,      // history: every call's clamped interval
    applied: seq<Request>,        // history: what the ticker was reset to
    superseded: seq<Request>,     // history: what was dropped from the channel
    ticks: nat,                   // history: ticks received
    snapshots: nat)               // history: snapshots sent

  const INITIAL := State(Idle, NotStarted, None, None, false, [], [], [], 0, 0)

  datatype Action =
    | Call(d: Duration)
    | SendNow
    | SeeFull
    | Drain
    | Resend
    | Start
    | FirstSnapshotSent
    | Receive
    | Reset
    | SnapshotSent
    | Tick
    | Cancel
    | Exit

  predicate IsSetterAction(a: Action) {
    a.Call? || a.SendNow? || a.SeeFull? || a.Drain? || a.Resend?
  }

  predicate Enabled(s: State, a: Action) {
    match a
    case Call(_) => s.setter.Idle?
    case SendNow => s.setter.Choosing? && s.channel.None?
    case SeeFull => s.setter.Choosing? && s.channel.Some?
    case Drain => s.setter.Draining? && s.channel.Some?
    case Resend => s.setter.Resending? && s.channel.None?
    case Start => s.loop.NotStarted?
    case FirstSnapshotSent => s.loop.Starting?
    case Receive => s.loop.Waiting? && s.channel.Some?
    case Reset => s.loop.Got?
    case SnapshotSent => s.loop.Sending?
    case Tick => s.loop.Waiting?
    case Cancel => true
    case Exit => s.loop.Waiting? && s.cancelled
  }

  function Step(configured: Duration, s: State, a: Action): State
    requires Enabled(s, a)
  {
    match a
    case Call(d) =>
      var r := Request(|s.requested|, Clamp(d));
      s.(setter := Choosing(r), requested := s.requested + [r])
    case SendNow => s.(setter := Idle, channel := Some(s.setter.r))
    case SeeFull => s.(setter := Draining(s.setter.r))
    case Drain =>
      s.(setter := Resending(s.setter.r), channel := None, superseded := s.superseded + [s.channel.value])
    case Resend => s.(setter := Idle, channel := Some(s.setter.r))
    case Start => s.(loop := Starting)
    case FirstSnapshotSent =>
      s.(loop := Waiting, period := Some(StartupInterval(configured)), snapshots := s.snapshots + 1)
    case Receive => s.(loop := Got(s.channel.value), channel := None)
    case Reset => s.(loop := Sending, period := Some(s.loop.r.d), applied := s.applied + [s.loop.r])
    case SnapshotSent => s.(loop := Waiting, snapshots := s.snapshots + 1)
    case Tick => s.(loop := Sending, ticks := s.ticks + 1)
    case Cancel => s.(cancelled := true)
    case Exit => s.(loop := Exited)
  }

  /** The state a run of actions leads to from s, if each was enabled in turn. */
  function Run(configured: Duration, s: State, actions: seq<Action>): Option<State> {
    if actions == [] then Some(s)
    else
      match Run(configured, s, actions[..|actions| - 1])
      case None => None
      case Some(t) =>
        var a := actions[|actions| - 1];
        if Enabled(t, a) then Some(Step(configured, t, a)) else None
  }

  // ---- what every step keeps ----

  function InLoop(s: State): seq<Request> {
    if s.loop.Got? then [s.loop.r] else []
  }

  function InChannel(s: State): seq<Request> {
    if s.channel.Some? then [s.channel.value] else []
  }

  function InSetter(s: State): seq<Request> {
    if s.setter.Idle? then [] else [s.setter.r]
  }

  /** The applied requests followed by those on their way, the oldest first. */
  function Pipeline(s: State): seq<Request> {
    s.applied + InLoop(s) + InChannel(s) + InSetter(s)
  }

  predicate Increasing(rs: seq<Request>) {
    forall i, j | 0 <= i < j < |rs| :: rs[i].id < rs[j].id
  }

  /** The requests are numbered by their calls. */
  predicate Numbered(rs: seq<Request>) {
    forall i | 0 <= i < |rs| :: rs[i].id == i && MIN_INTERVAL <= rs[i].d
  }

  /** Every element of rs is one of the requests made. */
  predicate From(rs: seq<Request>, requested: seq<Request>) {
    forall r | r in rs :: r.id < |requested| && requested[r.id] == r
  }

  /** Nothing is lost and nothing duplicated. */
  ghost predicate Conserved(s: State) {
    multiset(s.requested) == multiset(Pipeline(s)) + multiset(s.superseded)
  }

  /** The newest request is never the one dropped, and a call in progress holds it. */
  predicate NewestSurvives(s: State) {
    && (forall r | r in s.superseded :: r.id + 1 < |s.requested|)
    && (!s.setter.Idle? ==> s.setter.r.id + 1 == |s.requested|)
  }

  predicate HasTicker(s: State) {
    !s.loop.NotStarted? && !s.loop.Starting?
  }

  /** The ticker runs at the startup interval until a request is applied, and then at the
      last one applied. */
  predicate PeriodIsLastApplied(configured: Duration, s: State) {
    if HasTicker(s) then
      s.period == Some(if s.applied == [] then StartupInterval(configured) else s.applied[|s.applied| - 1].d)
    else
      s.period == None && s.applied == []
  }

  /** Applied and on their way, and dropped: both in the order of the calls. */
  predicate Ordered(s: State) {
    && Numbered(s.requested)
    && From(Pipeline(s), s.requested)
    && From(s.superseded, s.requested)
    && Increasing(Pipeline(s))
    && Increasing(s.superseded)
    && (s.channel.Some? ==> forall r | r in s.superseded :: r.id < s.channel.value.id)
    && (s.setter.Resending? ==> s.channel.None?)
  }

  ghost predicate Inv(configured: Duration, s: State) {
    && Ordered(s)
    && Conserved(s)
    && NewestSurvives(s)
    && PeriodIsLastApplied(configured, s)
  }

  /** Only a call and a drop change the pipeline. */
  lemma PipelineStep(configured: Duration, s: State, a: Action)
    requires Enabled(s, a)
    ensures a.Call? ==>
      Pipeline(Step(configured, s, a)) == Pipeline(s) + [Request(|s.requested|, Clamp(a.d))]
    ensures a.Drain? ==>
      && Pipeline(s) == s.applied + InLoop(s) + [s.channel.value] + [s.setter.r]
      && Pipeline(Step(configured, s, a)) == s.applied + InLoop(s) + [s.setter.r]
    ensures !a.Call? && !a.Drain? ==> Pipeline(Step(configured, s, a)) == Pipeline(s)
  {
  }

  lemma Dropped(before: seq<Request>, r: Request, after: seq<Request>)
    requires Increasing(before + [r] + after)
    ensures Increasing(before + after)
  {
    var was, now := before + [r] + after, before + after;
    forall i, j | 0 <= i < j < |now| ensures now[i].id < now[j].id {
      var i', j' := if i < |before| then i else i + 1, if j < |before| then j else j + 1;
      assert now[i] == was[i'] && now[j] == was[j'];
    }
  }

  lemma DrainKeepsOrder(configured: Duration, s: State)
    requires Ordered(s) && Enabled(s, Drain)
    ensures Ordered(Step(configured, s, Drain))
  {
    PipelineStep(configured, s, Drain);
    var older := s.applied + InLoop(s);
    Dropped(older, s.channel.value, [s.setter.r]);
    assert Pipeline(s)[|older|] == s.channel.value;
  }

  lemma Appended(rs: seq<Request>, requested: seq<Request>, r: Request)
    requires Numbered(requested) && Increasing(rs) && From(rs, requested)
    requires r.id == |requested| && MIN_INTERVAL <= r.d
    ensures Numbered(requested + [r]) && Increasing(rs + [r]) && From(rs + [r], requested + [r])
  {
    forall i | 0 <= i < |rs| ensures rs[i].id < r.id {
      assert rs[i] in rs;
    }
  }

  lemma CallKeepsOrder(configured: Duration, s: State, d: Duration)
    requires Ordered(s) && Enabled(s, Call(d))
    ensures Ordered(Step(configured, s, Call(d)))
  {
    PipelineStep(configured, s, Call(d));
    Appended(Pipeline(s), s.requested, Request(|s.requested|, Clamp(d)));
  }

  /** The setter's request comes to be the channel's: it is newer than all that was dropped. */
  lemma SendKeepsOrder(configured: Duration, s: State, a: Action)
    requires Ordered(s) && NewestSurvives(s) && Enabled(s, a) && (a.SendNow? || a.Resend?)
    ensures Ordered(Step(configured, s, a))
  {
    PipelineStep(configured, s, a);
  }

  lemma LoopKeepsOrder(configured: Duration, s: State, a: Action)
    requires Ordered(s) && Enabled(s, a) && (!IsSetterAction(a) || a.SeeFull?)
    ensures Ordered(Step(configured, s, a))
  {
    PipelineStep(configured, s, a);
  }

  lemma StepKeepsOrder(configured: Duration, s: State, a: Action)
    requires Ordered(s) && NewestSurvives(s) && Enabled(s, a)
    ensures Ordered(Step(configured, s, a))
  {
    match a {
      case Call(d) => CallKeepsOrder(configured, s, d);
      case Drain => DrainKeepsOrder(configured, s);
      case SendNow => SendKeepsOrder(configured, s, a);
      case Resend => SendKeepsOrder(configured, s, a);
      case _ => LoopKeepsOrder(configured, s, a);
    }
  }

  lemma StepConserves(configured: Duration, s: State, a: Action)
    requires Conserved(s) && Enabled(s, a)
    ensures Conserved(Step(configured, s, a))
  {
    PipelineStep(configured, s, a);
  }

  lemma StepKeepsNewest(configured: Duration, s: State, a: Action)
    requires Ordered(s) && NewestSurvives(s) && Enabled(s, a)
    ensures NewestSurvives(Step(configured, s, a))
  {
    if a.Drain? {
      var older := s.applied + InLoop(s);
      assert Pipeline(s)[|older|] == s.channel.value && Pipeline(s)[|older| + 1] == s.setter.r;
    }
  }

  lemma StepKeepsPeriod(configured: Duration, s: State, a: Action)
    requires PeriodIsLastApplied(configured, s) && Enabled(s, a)
    ensures PeriodIsLastApplied(configured, Step(configured, s, a))
  {
  }

  lemma StepKeepsInv(configured: Duration, s: State, a: Action)
    requires Inv(configured, s) && Enabled(s, a)
    ensures Inv(configured, Step(configured, s, a))
  {
    StepKeepsOrder(configured, s, a);
    StepConserves(configured, s, a);
    StepKeepsNewest(configured, s, a);
    StepKeepsPeriod(configured, s, a);
  }

  /** The invariant holds in every reachable state. */
  lemma {:induction false} InvAlways(configured: Duration, actions: seq<Action>)
    requires Run(configured, INITIAL, actions).Some?
    ensures Inv(configured, Run(configured, INITIAL, actions).value)
  {
    if actions != [] {
      var front := actions[..|actions| - 1];
      InvAlways(configured, front);
      StepKeepsInv(configured, Run(configured, INITIAL, front).value, actions[|actions| - 1]);
    }
  }

  // ---- conservation, order and convergence ----

  /** In how many places request r is: applied, dropped, received, buffered or held by a
      call in progress. */
  function Places(s: State, r: Request): nat {
    multiset(s.applied)[r] + multiset(s.superseded)[r]
    + multiset(InLoop(s))[r] + multiset(InChannel(s))[r] + multiset(InSetter(s))[r]
  }

  lemma {:induction false} NumberedOnce(rs: seq<Request>, i: nat)
    requires Numbered(rs) && i < |rs|
    ensures multiset(rs)[rs[i]] == 1
  {
    assert rs == rs[..i] + [rs[i]] + rs[i + 1..];
    assert rs[i] !in rs[..i] && rs[i] !in rs[i + 1..];
  }

  /** Over every interleaving: each requested interval is in exactly one place, what has
      been applied is an in-order selection of what was requested, and everything dropped
      has a later request. */
  lemma ConservationAndOrder(configured: Duration, actions: seq<Action>)
    requires Run(configured, INITIAL, actions).Some?
    ensures var s := Run(configured, INITIAL, actions).value;
      && (forall i | 0 <= i < |s.requested| :: Places(s, s.requested[i]) == 1)
      && IsSubsequence(s.applied, s.requested)
      && IsSubsequence(s.superseded, s.requested)
      && (forall r | r in s.superseded :: r.id + 1 < |s.requested|)
  {
    var s := Run(configured, INITIAL, actions).value;
    InvAlways(configured, actions);
    forall i | 0 <= i < |s.requested| ensures Places(s, s.requested[i]) == 1 {
      NumberedOnce(s.requested, i);
      assert Places(s, s.requested[i]) == (multiset(Pipeline(s)) + multiset(s.superseded))[s.requested[i]];
    }
    PrefixOfPipeline(s);
    SelectionIsSubsequence(s.applied, s.requested, |s.requested|);
    SelectionIsSubsequence(s.superseded, s.requested, |s.requested|);
    assert s.requested[..|s.requested|] == s.requested;
  }

  lemma PrefixOfPipeline(s: State)
    requires Ordered(s)
    ensures Increasing(s.applied) && From(s.applied, s.requested)
  {
    assert forall i | 0 <= i < |s.applied| :: s.applied[i] == Pipeline(s)[i];
  }

  lemma {:induction false} SelectionIsSubsequence(rs: seq<Request>, requested: seq<Request>, n: nat)
    requires n <= |requested| && Numbered(requested) && Increasing(rs) && From(rs, requested)
    requires forall r | r in rs :: r.id < n
    ensures IsSubsequence(rs, requested[..n])
    decreases n
  {
    if rs != [] {
      var front, last := rs[..|rs| - 1], rs[|rs| - 1];
      assert last in rs;
      assert requested[..n][..n - 1] == requested[..n - 1];
      if last.id == n - 1 {
        SelectionIsSubsequence(front, requested, n - 1);
      } else {
        forall r | r in rs ensures r.id < n - 1 {
          var i :| 0 <= i < |rs| && rs[i] == r;
        }
        SelectionIsSubsequence(rs, requested, n - 1);
      }
    }
  }

  /** The loop runs, no call is in progress, and no value is buffered or received but not
      yet applied. */
  predicate Settled(s: State) {
    (s.loop.Waiting? || s.loop.Sending?) && s.setter.Idle? && s.channel.None?
  }

  /** In every settled state the ticker runs at what the most recent call returned, or at
      the startup interval if there was none. */
  lemma Convergence(configured: Duration, actions: seq<Action>)
    requires Run(configured, INITIAL, actions).Some?
    requires Settled(Run(configured, INITIAL, actions).value)
    ensures var s := Run(configured, INITIAL, actions).value;
      s.period == Some(if s.requested == [] then StartupInterval(configured) else s.requested[|s.requested| - 1].d)
  {
    InvAlways(configured, actions);
    var s := Run(configured, INITIAL, actions).value;
    if s.requested != [] {
      NewestIsLastApplied(s);
    }
  }

  lemma SettledPipeline(s: State)
    requires Settled(s)
    ensures Pipeline(s) == s.applied
  {
  }

  lemma NewestIsLastApplied(s: State)
    requires Ordered(s) && Conserved(s) && NewestSurvives(s) && Settled(s) && s.requested != []
    ensures s.applied != [] && s.applied[|s.applied| - 1] == s.requested[|s.requested| - 1]
  {
    SettledPipeline(s);
    PrefixOfPipeline(s);
    assert multiset(s.requested) == multiset(s.applied) + multiset(s.superseded);
    NewestApplied(s.requested, s.applied, s.superseded);
    LargestIsLast(s.applied, s.requested);
  }

  lemma NewestApplied(requested: seq<Request>, applied: seq<Request>, superseded: seq<Request>)
    requires requested != [] && Numbered(requested)
    requires multiset(requested) == multiset(applied) + multiset(superseded)
    requires forall r | r in superseded :: r.id + 1 < |requested|
    ensures requested[|requested| - 1] in applied
  {
    var newest := requested[|requested| - 1];
    assert newest in multiset(requested);
    assert newest !in superseded;
  }

  lemma LargestIsLast(applied: seq<Request>, requested: seq<Request>)
    requires requested != [] && Numbered(requested) && Increasing(applied) && From(applied, requested)
    requires requested[|requested| - 1] in applied
    ensures applied[|applied| - 1] == requested[|requested| - 1]
  {
    var newest, last := requested[|requested| - 1], applied[|applied| - 1];
    var i :| 0 <= i < |applied| && applied[i] == newest;
    assert last in applied;
  }

  /** The ticker is never given a period that is not positive, and whatever it is reset to
      at runtime is at least a second, also when the product of seconds wraps around. */
  lemma PeriodAlwaysPositive(configured: Duration, actions: seq<Action>)
    requires Run(configured, INITIAL, actions).Some?
    ensures var s := Run(configured, INITIAL, actions).value;
      && (s.period.Some? ==> 0 < s.period.value)
      && (forall r | r in s.applied :: SECOND <= r.d)
      && (s.loop.Got? ==> SECOND <= s.loop.r.d)
  {
    var s := Run(configured, INITIAL, actions).value;
    InvAlways(configured, actions);
    PrefixOfPipeline(s);
    assert s.loop.Got? ==> Pipeline(s)[|s.applied|] == s.loop.r;
  }

  // ---- what the histories mean ----

  /** The arguments of the calls in a run. */
  function CallsOf(actions: seq<Action>): seq<Duration> {
    if actions == [] then []
    else
      var earlier, a := CallsOf(actions[..|actions| - 1]), actions[|actions| - 1];
      if a.Call? then earlier + [a.d] else earlier
  }

  /** The requests are the calls, in order, each of at least a second. */
  lemma {:induction false} RequestedAreCalls(configured: Duration, actions: seq<Action>)
    requires Run(configured, INITIAL, actions).Some?
    ensures var requested := Run(configured, INITIAL, actions).value.requested;
      && |requested| == |CallsOf(actions)|
      && forall i | 0 <= i < |requested| ::
           requested[i].d == if CallsOf(actions)[i] < 1_000_000_000 then 1_000_000_000 else CallsOf(actions)[i]
  {
    if actions != [] {
      RequestedAreCalls(configured, actions[..|actions| - 1]);
    }
  }

  /** The start of the loop, each tick and each applied request lead to one snapshot, which
      has been sent or is being sent. */
  lemma {:induction false} SnapshotForEach(configured: Duration, actions: seq<Action>)
    requires Run(configured, INITIAL, actions).Some?
    ensures var s := Run(configured, INITIAL, actions).value;
      s.snapshots + (if s.loop.Starting? || s.loop.Sending? then 1 else 0)
      == (if s.loop.NotStarted? then 0 else 1) + s.ticks + |s.applied|
  {
    if actions != [] {
      SnapshotForEach(configured, actions[..|actions| - 1]);
    }
  }

  // ---- progress of a call ----

  /** A call waits at the drain for a value that the loop has already taken. */
  predicate Blocked(s: State) {
    s.setter.Draining? && s.channel.None?
  }

  /** The setter's next step within a call. */
  function NextOfCall(s: State): Option<Action> {
    match s.setter
    case Idle => None
    case Choosing(_) => Some(if s.channel.None? then SendNow else SeeFull)
    case Draining(_) => if s.channel.Some? then Some(Drain) else None
    case Resending(_) => if s.channel.None? then Some(Resend) else None
  }

  /** Own steps left to a call in progress. */
  function StepsLeft(s: State): nat {
    match s.setter
    case Idle => 0
    case Choosing(_) => 3
    case Draining(_) => 2
    case Resending(_) => 1
  }

  function SetterSteps(actions: seq<Action>): nat {
    if actions == [] then 0
    else SetterSteps(actions[..|actions| - 1]) + if IsSetterAction(actions[|actions| - 1]) then 1 else 0
  }

  /** A call in progress can take its next step in every reachable state that is not
      blocked, and no step in a blocked one. */
  lemma ProgressUnlessBlocked(configured: Duration, actions: seq<Action>, a: Action)
    requires Run(configured, INITIAL, actions).Some?
    ensures var s := Run(configured, INITIAL, actions).value;
      && (!s.setter.Idle? ==> (NextOfCall(s).Some? <==> !Blocked(s)))
      && (NextOfCall(s).Some? ==> Enabled(s, NextOfCall(s).value))
      && (Blocked(s) && IsSetterAction(a) ==> !Enabled(s, a))
  {
    InvAlways(configured, actions);
  }

  /** However the loop interleaves, a call completes within three steps of its own. */
  lemma {:induction false} CallWithinThreeSteps(configured: Duration, s: State, actions: seq<Action>)
    requires !s.setter.Idle? && Run(configured, s, actions).Some?
    requires forall a | a in actions :: !a.Call?
    ensures SetterSteps(actions) <= StepsLeft(s) <= 3
    ensures StepsLeft(Run(configured, s, actions).value) + SetterSteps(actions) <= StepsLeft(s)
    ensures SetterSteps(actions) == 3 ==> Run(configured, s, actions).value.setter.Idle?
  {
    if actions != [] {
      var front := actions[..|actions| - 1];
      CallWithinThreeSteps(configured, s, front);
    }
  }

  /** Once blocked, blocked for ever. */
  lemma {:induction false} BlockedForEver(configured: Duration, s: State, actions: seq<Action>)
    requires Blocked(s) && Run(configured, s, actions).Some?
    ensures Blocked(Run(configured, s, actions).value)
    ensures Run(configured, s, actions).value.setter == s.setter
    ensures Run(configured, s, actions).value.requested == s.requested
  {
    if actions != [] {
      BlockedForEver(configured, s, actions[..|actions| - 1]);
    }
  }

  /** At some point of the run the loop takes the pending value between the setter's
      full-channel check and its drain. */
  predicate LosesRace(configured: Duration, actions: seq<Action>) {
    exists k | 0 <= k < |actions| ::
      && actions[k].Receive?
      && Run(configured, INITIAL, actions[..k]).Some?
      && Run(configured, INITIAL, actions[..k]).value.setter.Draining?
  }

  lemma LosesRaceExtend(configured: Duration, front: seq<Action>, a: Action)
    requires Run(configured, INITIAL, front).Some?
    ensures LosesRace(configured, front + [a]) <==>
      LosesRace(configured, front) || (a.Receive? && Run(configured, INITIAL, front).value.setter.Draining?)
  {
    var all := front + [a];
    assert forall k | 0 <= k <= |front| :: all[..k] == front[..k];
    assert front[..|front|] == front;
    assert all[|front|] == a;
    assert forall k | 0 <= k < |front| :: all[k] == front[k];
  }

  /** The blocked states are exactly those after such a race. */
  lemma {:induction false} BlockedIffLosesRace(configured: Duration, actions: seq<Action>)
    requires Run(configured, INITIAL, actions).Some?
    ensures Blocked(Run(configured, INITIAL, actions).value) <==> LosesRace(configured, actions)
  {
    if actions != [] {
      var front, a := actions[..|actions| - 1], actions[|actions| - 1];
      BlockedIffLosesRace(configured, front);
      LosesRaceExtend(configured, front, a);
      assert actions == front + [a];
    }
  }

  // ---- what can follow without a further call ----

  lemma RunExtend(configured: Duration, s: State, actions: seq<Action>, t: State, a: Action)
    requires Run(configured, s, actions) == Some(t) && Enabled(t, a)
    ensures Run(configured, s, actions + [a]) == Some(Step(configured, t, a))
  {
    assert (actions + [a])[..|actions|] == actions;
  }

  lemma {:induction false} RunConcat(configured: Duration, s: State, first: seq<Action>, t: State, rest: seq<Action>)
    requires Run(configured, s, first) == Some(t)
    ensures Run(configured, s, first + rest) == Run(configured, t, rest)
  {
    if rest == [] {
      assert first + rest == first;
    } else {
      assert (first + rest)[..|first + rest| - 1] == first + rest[..|rest| - 1];
      RunConcat(configured, s, first, t, rest[..|rest| - 1]);
    }
  }

  /** A run without calls leads from s to t. */
  ghost predicate Reaches(configured: Duration, s: State, t: State) {
    exists actions: seq<Action> ::
      (forall a | a in actions :: !a.Call?) && Run(configured, s, actions) == Some(t)
  }

  lemma ReachesNext(configured: Duration, s: State, a: Action)
    requires !a.Call? && Enabled(s, a)
    ensures Reaches(configured, s, Step(configured, s, a))
  {
    RunExtend(configured, s, [], s, a);
    assert [] + [a] == [a];
  }

  lemma ReachesThen(configured: Duration, s: State, t: State, u: State)
    requires Reaches(configured, s, t) && Reaches(configured, t, u)
    ensures Reaches(configured, s, u)
  {
    var first: seq<Action> :| (forall a | a in first :: !a.Call?) && Run(configured, s, first) == Some(t);
    var rest: seq<Action> :| (forall a | a in rest :: !a.Call?) && Run(configured, t, rest) == Some(u);
    RunConcat(configured, s, first, t, rest);
    assert forall a | a in first + rest :: !a.Call?;
  }

  lemma ReachesBy(configured: Duration, s: State, t: State, a: Action)
    requires Reaches(configured, s, t) && !a.Call? && Enabled(t, a)
    ensures Reaches(configured, s, Step(configured, t, a))
  {
    ReachesNext(configured, t, a);
    ReachesThen(configured, s, t, Step(configured, t, a));
  }

  /** The loop's next step towards its select. */
  function NextOfLoop(loop: Loop): Option<Action> {
    match loop
    case NotStarted => Some(Start)
    case Starting => Some(FirstSnapshotSent)
    case Got(_) => Some(Reset)
    case Sending => Some(SnapshotSent)
    case _ => None
  }

  function StepsToSelect(loop: Loop): nat {
    if loop.NotStarted? || loop.Got? then 2 else if loop.Starting? || loop.Sending? then 1 else 0
  }

  lemma ReachesWaiting(configured: Duration, s: State) returns (t: State)
    requires !s.loop.Exited?
    ensures Reaches(configured, s, t)
    ensures t.loop.Waiting? && t.channel == s.channel && t.setter == s.setter
    ensures t.ticks == s.ticks && s.snapshots <= t.snapshots
    decreases StepsToSelect(s.loop)
  {
    if s.loop.Waiting? {
      t := s;
      assert Run(configured, s, []) == Some(s);
    } else {
      var a := NextOfLoop(s.loop).value;
      var next := Step(configured, s, a);
      ReachesNext(configured, s, a);
      t := ReachesWaiting(configured, next);
      ReachesThen(configured, s, next, t);
    }
  }

  /** The call under way in s can come to be blocked. */
  ghost predicate CanBlock(configured: Duration, s: State) {
    exists t :: Reaches(configured, s, t) && Blocked(t)
  }

  /** A call that finds the channel empty never drains, and one that finds the loop gone is
      not robbed. */
  lemma {:induction false} CallIsSafe(configured: Duration, s: State, actions: seq<Action>)
    requires (s.setter.Choosing? && s.channel.None?) || (s.loop.Exited? && !Blocked(s))
    requires Run(configured, s, actions).Some? && forall a | a in actions :: !a.Call?
    ensures var t := Run(configured, s, actions).value;
      && !Blocked(t)
      && (s.loop.Exited? ==> t.loop.Exited?)
      && (s.setter.Choosing? && s.channel.None? ==> t.setter.Idle? || (t.setter.Choosing? && t.channel.None?))
  {
    if actions != [] {
      var front, a := actions[..|actions| - 1], actions[|actions| - 1];
      assert a in actions;
      CallIsSafe(configured, s, front);
    }
  }

  lemma FullChannelCanBlock(configured: Duration, s: State, d: Duration)
    requires s.setter.Idle? && s.channel.Some? && !s.loop.Exited?
    ensures CanBlock(configured, Step(configured, s, Call(d)))
  {
    var called := Step(configured, s, Call(d));
    var full := Step(configured, called, SeeFull);
    ReachesNext(configured, called, SeeFull);
    var t := ReachesWaiting(configured, full);
    ReachesThen(configured, called, full, t);
    ReachesBy(configured, called, t, Receive);
  }

  /** What the caller can know beforehand: a call can come to be blocked exactly if it begins
      with a value pending and the loop not gone. */
  lemma CallCanBlockIff(configured: Duration, s: State, d: Duration)
    requires s.setter.Idle?
    ensures CanBlock(configured, Step(configured, s, Call(d))) <==> s.channel.Some? && !s.loop.Exited?
  {
    if s.channel.Some? && !s.loop.Exited? {
      FullChannelCanBlock(configured, s, d);
    } else {
      var called := Step(configured, s, Call(d));
      forall t | Reaches(configured, called, t) ensures !Blocked(t) {
        var actions: seq<Action> :|
          (forall a | a in actions :: !a.Call?) && Run(configured, called, actions) == Some(t);
        CallIsSafe(configured, called, actions);
      }
    }
  }

  /** The race can be lost: two calls around the loop's start suffice. So
      SetTelemetryInterval does not always return. */
  lemma BlockedReachable(configured: Duration, d: Duration, e: Duration) returns (actions: seq<Action>)
    ensures Run(configured, INITIAL, actions).Some?
    ensures Blocked(Run(configured, INITIAL, actions).value)
  {
    var s := INITIAL;
    actions := [];
    RunExtend(configured, INITIAL, actions, s, Call(d));
    actions, s := actions + [Call(d)], Step(configured, s, Call(d));
    RunExtend(configured, INITIAL, actions, s, SendNow);
    actions, s := actions + [SendNow], Step(configured, s, SendNow);
    RunExtend(configured, INITIAL, actions, s, Start);
    actions, s := actions + [Start], Step(configured, s, Start);
    RunExtend(configured, INITIAL, actions, s, FirstSnapshotSent);
    actions, s := actions + [FirstSnapshotSent], Step(configured, s, FirstSnapshotSent);
    RunExtend(configured, INITIAL, actions, s, Call(e));
    actions, s := actions + [Call(e)], Step(configured, s, Call(e));
    RunExtend(configured, INITIAL, actions, s, SeeFull);
    actions, s := actions + [SeeFull], Step(configured, s, SeeFull);
    RunExtend(configured, INITIAL, actions, s, Receive);
    actions, s := actions + [Receive], Step(configured, s, Receive);
  }

  /** As long as the loop has not exited, a tick can come, and its snapshot be sent. */
  lemma TickCanCome(configured: Duration, s: State) returns (t: State)
    requires !s.loop.Exited?
    ensures Reaches(configured, s, t)
    ensures t.ticks == s.ticks + 1 && s.snapshots < t.snapshots
  {
    var waiting := ReachesWaiting(configured, s);
    ReachesBy(configured, s, waiting, Tick);
    t := Step(configured, waiting, Tick);
    ReachesBy(configured, s, t, SnapshotSent);
    t := Step(configured, t, SnapshotSent);
  }

  /** What the loop's select offers, and when: a tick always, a value if there is one, and the
      end after a cancellation; and none of them outside the select. */
  lemma SelectOffers(s: State)
    ensures s.loop.Waiting? ==>
      Enabled(s, Tick) && (Enabled(s, Receive) <==> s.channel.Some?) && (Enabled(s, Exit) <==> s.cancelled)
    ensures !s.loop.Waiting? ==> !Enabled(s, Tick) && !Enabled(s, Receive) && !Enabled(s, Exit)
    ensures Enabled(s, Cancel)
  {
  }

  // ---- settling ----

  /** With the loop standing still, a call that is not blocked completes. */
  lemma ReachesIdle(configured: Duration, s: State) returns (t: State)
    requires !Blocked(s) && (s.setter.Resending? ==> s.channel.None?)
    ensures Reaches(configured, s, t)
    ensures t.setter.Idle? && t.loop == s.loop
    decreases StepsLeft(s)
  {
    if s.setter.Idle? {
      t := s;
      assert Run(configured, s, []) == Some(s);
    } else {
      var a := NextOfCall(s).value;
      var next := Step(configured, s, a);
      ReachesNext(configured, s, a);
      t := ReachesIdle(configured, next);
      ReachesThen(configured, s, next, t);
    }
  }

  /** The loop takes what is pending. */
  lemma ReachesSettled(configured: Duration, s: State) returns (t: State)
    requires s.setter.Idle? && s.loop.Waiting?
    ensures Reaches(configured, s, t) && Settled(t)
  {
    if s.channel.None? {
      t := s;
      assert Run(configured, s, []) == Some(s);
    } else {
      ReachesNext(configured, s, Receive);
      t := Step(configured, s, Receive);
      ReachesBy(configured, s, t, Reset);
      t := Step(configured, t, Reset);
    }
  }

  /** Once the loop has exited nothing is sent or applied any more. */
  lemma {:induction false} ExitedForEver(configured: Duration, s: State, actions: seq<Action>)
    requires s.loop.Exited? && Run(configured, s, actions).Some?
    ensures var t := Run(configured, s, actions).value;
      t.loop.Exited? && t.snapshots == s.snapshots && t.applied == s.applied
  {
    if actions != [] {
      ExitedForEver(configured, s, actions[..|actions| - 1]);
    }
  }

  lemma Settles(configured: Duration, s: State) returns (t: State)
    requires !Blocked(s) && !s.loop.Exited? && (s.setter.Resending? ==> s.channel.None?)
    ensures Reaches(configured, s, t) && Settled(t)
  {
    var waiting := ReachesWaiting(configured, s);
    var idle := ReachesIdle(configured, waiting);
    ReachesThen(configured, s, waiting, idle);
    t := ReachesSettled(configured, idle);
    ReachesThen(configured, s, idle, t);
  }

  /** From a reachable state the hand-off can settle without a further call if and only if
      the call is not stuck and the loop has not exited. */
  lemma SettlesIff(configured: Duration, actions: seq<Action>)
    requires Run(configured, INITIAL, actions).Some?
    ensures var s := Run(configured, INITIAL, actions).value;
      (exists t :: Reaches(configured, s, t) && Settled(t)) <==> !Blocked(s) && !s.loop.Exited?
  {
    var s := Run(configured, INITIAL, actions).value;
    InvAlways(configured, actions);
    if !Blocked(s) && !s.loop.Exited? {
      var t := Settles(configured, s);
    } else {
      forall t | Reaches(configured, s, t) ensures !Settled(t) {
        var rest: seq<Action> :| (forall a | a in rest :: !a.Call?) && Run(configured, s, rest) == Some(t);
        if Blocked(s) {
          BlockedForEver(configured, s, rest);
        } else {
          ExitedForEver(configured, s, rest);
        }
      }
    }
  }

  // ---- the end of the loop ----

  /** Neither a call nor a cancellation. */
  predicate ByItself(actions: seq<Action>) {
    forall a | a in actions :: !a.Call? && !a.Cancel?
  }

  lemma {:induction false} CancelledIff(configured: Duration, actions: seq<Action>)
    requires Run(configured, INITIAL, actions).Some?
    ensures Run(configured, INITIAL, actions).value.cancelled <==> Cancel in actions
    ensures Run(configured, INITIAL, actions).value.loop.Exited? ==> Cancel in actions
  {
    if actions != [] {
      var front, a := actions[..|actions| - 1], actions[|actions| - 1];
      CancelledIff(configured, front);
      assert actions == front + [a];
    }
  }

  lemma LoopLeaves(configured: Duration, s: State) returns (rest: seq<Action>)
    requires s.cancelled
    ensures ByItself(rest) && Run(configured, s, rest).Some? && Run(configured, s, rest).value.loop.Exited?
    decreases StepsToSelect(s.loop)
  {
    if s.loop.Exited? {
      rest := [];
    } else {
      var a := if s.loop.Waiting? then Exit else NextOfLoop(s.loop).value;
      var next := Step(configured, s, a);
      RunExtend(configured, s, [], s, a);
      assert [] + [a] == [a];
      if a == Exit {
        rest := [a];
      } else {
        rest := LoopLeaves(configured, next);
        RunConcat(configured, s, [a], next, rest);
        rest := [a] + rest;
      }
    }
  }

  /** Without a further call or cancellation the loop can come to its end if and only if there
      has been a cancellation. */
  lemma LoopEndsIff(configured: Duration, actions: seq<Action>)
    requires Run(configured, INITIAL, actions).Some?
    ensures var s := Run(configured, INITIAL, actions).value;
      (exists rest: seq<Action> ::
         ByItself(rest) && Run(configured, s, rest).Some? && Run(configured, s, rest).value.loop.Exited?)
      <==> Cancel in actions
  {
    var s := Run(configured, INITIAL, actions).value;
    CancelledIff(configured, actions);
    if Cancel in actions {
      var rest := LoopLeaves(configured, s);
    } else {
      forall rest: seq<Action> | ByItself(rest) && Run(configured, s, rest).Some?
        ensures !Run(configured, s, rest).value.loop.Exited?
      {
        RunConcat(configured, INITIAL, actions, s, rest);
        CancelledIff(configured, actions + rest);
        assert Cancel !in actions + rest;
      }
    }
  }

  // ---- calls while the loop does not receive ----

  /** The steps of one call that runs without the loop. */
  function CallAlone(s: State, d: Duration): seq<Action> {
    [Call(d)] + if s.channel.None? then [SendNow] else [SeeFull] + [Drain] + [Resend]
  }

  /** The state after those steps: only the newest request is left in the channel. */
  function AfterCall(s: State, d: Duration): State {
    var r := Request(|s.requested|, Clamp(d));
    s.(channel := Some(r), requested := s.requested + [r], superseded := s.superseded + InChannel(s))
  }

  lemma CallAloneCompletes(configured: Duration, s: State, before: seq<Action>, t: State, d: Duration)
    requires Run(configured, s, before) == Some(t) && t.setter.Idle?
    ensures Run(configured, s, before + CallAlone(t, d)) == Some(AfterCall(t, d))
  {
    RunExtend(configured, s, before, t, Call(d));
    var t1 := Step(configured, t, Call(d));
    var b1 := before + [Call(d)];
    if t.channel.None? {
      RunExtend(configured, s, b1, t1, SendNow);
      assert t.superseded + [] == t.superseded;
      assert before + CallAlone(t, d) == b1 + [SendNow];
    } else {
      RunExtend(configured, s, b1, t1, SeeFull);
      var t2 := Step(configured, t1, SeeFull);
      RunExtend(configured, s, b1 + [SeeFull], t2, Drain);
      var t3 := Step(configured, t2, Drain);
      RunExtend(configured, s, b1 + [SeeFull] + [Drain], t3, Resend);
      assert before + CallAlone(t, d) == b1 + [SeeFull] + [Drain] + [Resend];
    }
  }

  /** The calls ds, one after the other. */
  function CallsAlone(s: State, ds: seq<Duration>): seq<Action> {
    if ds == [] then []
    else
      var front := ds[..|ds| - 1];
      CallsAlone(s, front) + CallAlone(AfterCalls(s, front), ds[|ds| - 1])
  }

  function AfterCalls(s: State, ds: seq<Duration>): State {
    if ds == [] then s else AfterCall(AfterCalls(s, ds[..|ds| - 1]), ds[|ds| - 1])
  }

  /** Without the loop, any finite sequence of calls completes and leaves exactly the last
      clamped value in the channel; the loop and its ticker are untouched. */
  lemma {:induction false} CallsAloneComplete(configured: Duration, s: State, ds: seq<Duration>)
    requires s.setter.Idle?
    ensures Run(configured, s, CallsAlone(s, ds)) == Some(AfterCalls(s, ds))
    ensures AfterCalls(s, ds).setter.Idle?
    ensures ds != [] ==>
      AfterCalls(s, ds).channel.Some? && AfterCalls(s, ds).channel.value.d == Clamp(ds[|ds| - 1])
    ensures AfterCalls(s, ds).loop == s.loop && AfterCalls(s, ds).period == s.period
  {
    if ds != [] {
      var front := ds[..|ds| - 1];
      CallsAloneComplete(configured, s, front);
      CallAloneCompletes(configured, s, CallsAlone(s, front), AfterCalls(s, front), ds[|ds| - 1]);
    }
  }

  /** The loop receives nothing any more, or not yet. */
  predicate NotReceiving(s: State) {
    s.loop.NotStarted? || s.loop.Starting? || s.loop.Exited?
  }

  /** Before the loop has started and after it has exited no run of the setter blocks,
      whatever else happens, as long as the loop does not come to its select. */
  lemma {:induction false} NeverBlocksWithoutLoop(configured: Duration, s: State, actions: seq<Action>)
    requires NotReceiving(s) && !Blocked(s) && Run(configured, s, actions).Some?
    requires FirstSnapshotSent !in actions
    ensures NotReceiving(Run(configured, s, actions).value)
    ensures !Blocked(Run(configured, s, actions).value)
  {
    if actions != [] {
      NeverBlocksWithoutLoop(configured, s, actions[..|actions| - 1]);
    }
  }

  /** A run that starts between calls, and in which the loop does not come to its select,
      leaves exactly the newest clamped value in the channel whenever no call is under way. */
  lemma {:induction false} QueuedNewest(configured: Duration, s: State, actions: seq<Action>)
    requires NotReceiving(s) && s.setter.Idle? && Run(configured, s, actions).Some?
    requires FirstSnapshotSent !in actions
    ensures var t := Run(configured, s, actions).value;
      && NotReceiving(t) && !Blocked(t) && |s.requested| <= |t.requested|
      && (if |s.requested| == |t.requested| then t.setter.Idle? && t.channel == s.channel
          else var newest := t.requested[|t.requested| - 1];
            if t.setter.Idle? then t.channel == Some(newest) else t.setter.r == newest)
  {
    if actions != [] {
      QueuedNewest(configured, s, actions[..|actions| - 1]);
    }
  }

  // ---- the value reported to the platform ----

  /** int(applied.Seconds()) for a request of n seconds. */
  function ReportedSeconds(round: real -> real, n: int64): int {
    Truncate(InUnits(round, Clamp(FromSeconds(n)), SECOND))
  }

  /** The reported interval is the requested one exactly within the range of a Duration. */
  lemma ReportedIffInRange(round: real -> real, n: int64)
    requires IsRounding(round) && 0 < n
    ensures ReportedSeconds(round, n) == n <==> n <= MAX_SECONDS
  {
    var d := Clamp(FromSeconds(n));
    if n <= MAX_SECONDS {
      assert d == n * SECOND;
      InUnitsTruncates(round, d, SECOND);
    } else {
      WrappedDurations(n);
      if n < 18_446_744_073 {
        assert d == SECOND;
        InUnitsTruncates(round, d, SECOND);
      } else {
        UnitsBounded(round, d, SECOND, MAX_SECONDS);
      }
    }
  }
}
