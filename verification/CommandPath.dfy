/** The serial command handler on top of the interval hand-off: a message is taken, handled
    and answered before the next one is taken, and a message that sets the telemetry interval
    is answered only once its call of SetTelemetryInterval has returned. */
module CommandPath {
  import opened Basics
  import opened CommandHandler
  import opened Dispatcher
  import opened Durations
  import Handoff = IntervalHandoff

  const SET_INTERVAL: string := "telemetry.set_interval"

  /** The interval that handling a message sets. */
  function IntervalOf(cfg: Config, input: Input): Option<Duration> {
    var effects := EffectsOf(cfg, input);
    if |effects| == 1 && effects[0].SetInterval? then Some(effects[0].d) else None
  }

  /** answering: the last message taken is not answered yet. */
  datatype State = State(handoff: Handoff.State, taken: seq<Input>, answering: bool, log: Log)

  const INITIAL := State(Handoff.INITIAL, [], false, Log([], []))

  datatype Action =
    | Take(input: Input)
    | Respond
    | Inner(step: Handoff.Action)    // a step of the call under way, of the loop, or a cancellation

  predicate Enabled(s: State, a: Action) {
    match a
    case Take(_) => !s.answering && s.handoff.setter.Idle?
    case Respond => s.answering && s.handoff.setter.Idle? && s.taken != []
    case Inner(step) => !step.Call? && Handoff.Enabled(s.handoff, step)
  }

  function Step(cfg: Config, configured: Duration, s: State, a: Action): State
    requires Enabled(s, a)
  {
    match a
    case Take(input) =>
      var begun :=
        match IntervalOf(cfg, input)
        case None => s.handoff
        case Some(d) => Handoff.Step(configured, s.handoff, Handoff.Call(d));
      State(begun, s.taken + [input], true, s.log.(effects := s.log.effects + EffectsOf(cfg, input)))
    case Respond =>
      var input := s.taken[|s.taken| - 1];
      s.(answering := false, log := s.log.(attempts := s.log.attempts + AttemptsOf(cfg, input)))
    case Inner(step) => s.(handoff := Handoff.Step(configured, s.handoff, step))
  }

  /** The state a run of actions leads to from s, if each was enabled in turn. */
  function Run(cfg: Config, configured: Duration, s: State, actions: seq<Action>): Option<State> {
    if actions == [] then Some(s)
    else
      match Run(cfg, configured, s, actions[..|actions| - 1])
      case None => None
      case Some(t) =>
        var a := actions[|actions| - 1];
        if Enabled(t, a) then Some(Step(cfg, configured, t, a)) else None
  }

  // ---- the hand-off inside ----

  /** The hand-off's own actions in a run. */
  function Inside(cfg: Config, actions: seq<Action>): seq<Handoff.Action> {
    if actions == [] then []
    else
      var earlier := Inside(cfg, actions[..|actions| - 1]);
      match actions[|actions| - 1]
      case Take(input) =>
        (match IntervalOf(cfg, input) case None => earlier case Some(d) => earlier + [Handoff.Call(d)])
      case Respond => earlier
      case Inner(step) => earlier + [step]
  }

  /** What the handler's hand-off goes through is a run of the hand-off. */
  lemma {:induction false} InsideIsARun(cfg: Config, configured: Duration, actions: seq<Action>)
    requires Run(cfg, configured, INITIAL, actions).Some?
    ensures Handoff.Run(configured, Handoff.INITIAL, Inside(cfg, actions))
         == Some(Run(cfg, configured, INITIAL, actions).value.handoff)
  {
    if actions != [] {
      var front, a := actions[..|actions| - 1], actions[|actions| - 1];
      InsideIsARun(cfg, configured, front);
      var s := Run(cfg, configured, INITIAL, front).value;
      match a {
        case Take(input) =>
          if IntervalOf(cfg, input).Some? {
            Handoff.RunExtend(configured, Handoff.INITIAL, Inside(cfg, front), s.handoff,
                              Handoff.Call(IntervalOf(cfg, input).value));
          }
        case Respond =>
        case Inner(step) => Handoff.RunExtend(configured, Handoff.INITIAL, Inside(cfg, front), s.handoff, step);
      }
    }
  }

  // ---- results and messages ----

  /** The messages whose handling is over. */
  function Finished(s: State): seq<Input> {
    if s.answering && s.taken != [] then s.taken[..|s.taken| - 1] else s.taken
  }

  /** The intervals that a list of messages sets. */
  function Asked(cfg: Config, inputs: seq<Input>): seq<Duration> {
    if inputs == [] then []
    else
      var earlier := Asked(cfg, inputs[..|inputs| - 1]);
      match IntervalOf(cfg, inputs[|inputs| - 1])
      case None => earlier
      case Some(d) => earlier + [d]
  }

  predicate RequestedAsAsked(requested: seq<Handoff.Request>, asked: seq<Duration>) {
    && |requested| == |asked|
    && forall i | 0 <= i < |asked| :: requested[i].d == Handoff.Clamp(asked[i])
  }

  predicate Inv(cfg: Config, s: State) {
    && (s.answering ==> s.taken != [])
    && (!s.answering ==> s.handoff.setter.Idle?)
    && s.log.attempts == Serve(cfg, Finished(s)).attempts
    && s.log.effects == Serve(cfg, s.taken).effects
    && RequestedAsAsked(s.handoff.requested, Asked(cfg, s.taken))
  }

  lemma TakeKeepsInv(cfg: Config, configured: Duration, s: State, input: Input)
    requires Inv(cfg, s) && Enabled(s, Take(input))
    ensures Inv(cfg, Step(cfg, configured, s, Take(input)))
  {
    assert (s.taken + [input])[..|s.taken|] == s.taken;
  }

  lemma RespondKeepsInv(cfg: Config, configured: Duration, s: State)
    requires Inv(cfg, s) && Enabled(s, Respond)
    ensures Inv(cfg, Step(cfg, configured, s, Respond))
  {
  }

  lemma InnerKeepsInv(cfg: Config, configured: Duration, s: State, step: Handoff.Action)
    requires Inv(cfg, s) && Enabled(s, Inner(step))
    ensures Inv(cfg, Step(cfg, configured, s, Inner(step)))
  {
  }

  lemma {:induction false} InvAlways(cfg: Config, configured: Duration, actions: seq<Action>)
    requires Run(cfg, configured, INITIAL, actions).Some?
    ensures Inv(cfg, Run(cfg, configured, INITIAL, actions).value)
  {
    if actions != [] {
      var front := actions[..|actions| - 1];
      InvAlways(cfg, configured, front);
      var s := Run(cfg, configured, INITIAL, front).value;
      match actions[|actions| - 1] {
        case Take(input) => TakeKeepsInv(cfg, configured, s, input);
        case Respond => RespondKeepsInv(cfg, configured, s);
        case Inner(step) => InnerKeepsInv(cfg, configured, s, step);
      }
    }
  }

  /** At every point of every run the results published are those of the accepted messages
      taken, one each and in order, less the one under way. */
  lemma ResultsMatchMessages(cfg: Config, configured: Duration, actions: seq<Action>)
    requires Run(cfg, configured, INITIAL, actions).Some?
    ensures var s := Run(cfg, configured, INITIAL, actions).value;
      && (s.answering ==> s.taken != [])
      && var underWay := if s.answering && Accepted(s.taken[|s.taken| - 1].msg) then 1 else 0;
      && |s.log.attempts| == |AcceptedOf(s.taken)| - underWay
      && (forall k | 0 <= k < |s.log.attempts| :: Answers(cfg, AcceptedOf(s.taken)[k], s.log.attempts[k]))
  {
    InvAlways(cfg, configured, actions);
    OneResultPerAcceptedCommand(cfg, Finished(Run(cfg, configured, INITIAL, actions).value));
  }

  /** In every settled state the ticker runs at what the last message asked for, clamped, or
      at the startup interval if none did. */
  lemma TickerFollowsMessages(cfg: Config, configured: Duration, actions: seq<Action>)
    requires Run(cfg, configured, INITIAL, actions).Some?
    requires Handoff.Settled(Run(cfg, configured, INITIAL, actions).value.handoff)
    ensures var s := Run(cfg, configured, INITIAL, actions).value;
      var asked := Asked(cfg, s.taken);
      s.handoff.period
      == Some(if asked == [] then Handoff.StartupInterval(configured) else Handoff.Clamp(asked[|asked| - 1]))
  {
    InvAlways(cfg, configured, actions);
    InsideIsARun(cfg, configured, actions);
    Handoff.Convergence(configured, Inside(cfg, actions));
  }

  // ---- the handler stops ----

  /** The handler is stuck in SetTelemetryInterval. */
  predicate Stopped(s: State) {
    s.answering && Handoff.Blocked(s.handoff)
  }

  /** Until it is, the message under way can be answered, or its call can take its next step. */
  lemma ProgressUnlessStopped(cfg: Config, configured: Duration, actions: seq<Action>)
    requires Run(cfg, configured, INITIAL, actions).Some?
    ensures var s := Run(cfg, configured, INITIAL, actions).value;
      var next := Handoff.NextOfCall(s.handoff);
      && (Handoff.Blocked(s.handoff) ==> Stopped(s))
      && (s.answering && !Stopped(s) ==> Enabled(s, Respond) || (next.Some? && Enabled(s, Inner(next.value))))
      && (!s.answering ==> forall input :: Enabled(s, Take(input)))
  {
    InvAlways(cfg, configured, actions);
    InsideIsARun(cfg, configured, actions);
    Handoff.ProgressUnlessBlocked(configured, Inside(cfg, actions), Handoff.Drain);
  }

  /** Once stopped, no message is taken and none is answered any more. */
  lemma {:induction false} StoppedForEver(cfg: Config, configured: Duration, s: State, actions: seq<Action>)
    requires Stopped(s) && Run(cfg, configured, s, actions).Some?
    ensures var t := Run(cfg, configured, s, actions).value;
      Stopped(t) && t.taken == s.taken && t.log == s.log
  {
    if actions != [] {
      StoppedForEver(cfg, configured, s, actions[..|actions| - 1]);
    }
  }

  lemma RunSets(cfg: Config, op: string, p: Params, w: World)
    ensures forall e | e in RunAnswer(cfg, op, p, w).effects && e.SetInterval? :: op == SET_INTERVAL
    ensures op == SET_INTERVAL && 0 < p.intervalS ==>
      RunAnswer(cfg, op, p, w).effects == [SetInterval(FromSeconds(p.intervalS))]
  {
  }

  /** Only where the operation is allowed does a message set the interval. */
  lemma IntervalNeedsPermission(cfg: Config, input: Input)
    ensures IntervalOf(cfg, input).Some? ==> SET_INTERVAL in cfg.allowedOps
  {
    if IntervalOf(cfg, input).Some? {
      var op, p := EffectsAreOfRun(cfg, input.msg.env, input.w);
      RunSets(cfg, op, p, input.w);
      assert EffectsOf(cfg, input)[0] in RunAnswer(cfg, op, p, input.w).effects;
    }
  }

  /** The messages that set the interval: those that get to run the operation with a positive
      number of seconds. */
  lemma IntervalOfIs(cfg: Config, input: Input)
    ensures var cmd := input.w.decodeCommand(if input.msg.Parsed? then input.msg.env.payload else None);
      IntervalOf(cfg, input)
      == if input.msg.Parsed? && input.msg.env.v == 1 && cmd.Ok? && cmd.value.operation in cfg.allowedOps
            && cmd.value.operation == "telemetry.set_interval" && DecodedParams(cmd.value.params, input.w).Ok?
            && 0 < DecodedParams(cmd.value.params, input.w).value.intervalS
         then Some(FromSeconds(DecodedParams(cmd.value.params, input.w).value.intervalS))
         else None
  {
    EffectsAre(cfg, input);
    if input.msg.Parsed? {
      var cmd := input.w.decodeCommand(input.msg.env.payload);
      if cmd.Ok? && DecodedParams(cmd.value.params, input.w).Ok? {
        var p := DecodedParams(cmd.value.params, input.w).value;
        RunSets(cfg, cmd.value.operation, p, input.w);
        NoIntervalOf(cfg, p, input.w);
      }
    }
  }

  lemma NoIntervalOf(cfg: Config, p: Params, w: World)
    ensures p.intervalS <= 0 ==> RunAnswer(cfg, SET_INTERVAL, p, w).effects == []
  {
  }

  lemma {:induction false} NeverStops(cfg: Config, configured: Duration, actions: seq<Action>)
    requires SET_INTERVAL !in cfg.allowedOps && Run(cfg, configured, INITIAL, actions).Some?
    ensures Run(cfg, configured, INITIAL, actions).value.handoff.setter.Idle?
  {
    if actions != [] {
      NeverStops(cfg, configured, actions[..|actions| - 1]);
      var a := actions[|actions| - 1];
      if a.Take? {
        IntervalNeedsPermission(cfg, a.input);
      }
    }
  }

  lemma Extend(cfg: Config, configured: Duration, before: seq<Action>, s: State, a: Action)
    requires Run(cfg, configured, INITIAL, before) == Some(s) && Enabled(s, a)
    ensures Run(cfg, configured, INITIAL, before + [a]) == Some(Step(cfg, configured, s, a))
  {
    assert (before + [a])[..|before|] == before;
  }

  /** A message that asks for one second. */
  function OneSecond(): Input {
    Asking(SET_INTERVAL, Params("", "", [], 1), Err(""))
  }

  lemma OneSecondSets(cfg: Config)
    requires SET_INTERVAL in cfg.allowedOps
    ensures IntervalOf(cfg, OneSecond()) == Some(FromSeconds(1))
  {
    var p := Params("", "", [], 1);
    SampleOutcome(cfg, SET_INTERVAL, p, Err(""));
    RunSets(cfg, SET_INTERVAL, p, OneSecond().w);
  }

  /** One message is answered before the loop starts. */
  lemma OneAnswered(cfg: Config, configured: Duration, input: Input) returns (actions: seq<Action>, s: State)
    requires IntervalOf(cfg, input).Some?
    ensures Run(cfg, configured, INITIAL, actions) == Some(s)
    ensures !s.answering && s.handoff.setter.Idle? && s.handoff.channel.Some? && s.handoff.loop.NotStarted?
  {
    actions, s := [], INITIAL;
    Extend(cfg, configured, actions, s, Take(input));
    actions, s := actions + [Take(input)], Step(cfg, configured, s, Take(input));
    Extend(cfg, configured, actions, s, Inner(Handoff.SendNow));
    actions, s := actions + [Inner(Handoff.SendNow)], Step(cfg, configured, s, Inner(Handoff.SendNow));
    Extend(cfg, configured, actions, s, Respond);
    actions, s := actions + [Respond], Step(cfg, configured, s, Respond);
  }

  /** The loop comes to its select; nothing else changes. */
  lemma LoopComesToWait(cfg: Config, configured: Duration, before: seq<Action>, s: State)
    returns (actions: seq<Action>, t: State)
    requires Run(cfg, configured, INITIAL, before) == Some(s) && s.handoff.loop.NotStarted?
    ensures Run(cfg, configured, INITIAL, actions) == Some(t)
    ensures t.handoff.loop.Waiting? && t.answering == s.answering
    ensures t.handoff.setter == s.handoff.setter && t.handoff.channel == s.handoff.channel
  {
    Extend(cfg, configured, before, s, Inner(Handoff.Start));
    var started := Step(cfg, configured, s, Inner(Handoff.Start));
    Extend(cfg, configured, before + [Inner(Handoff.Start)], started, Inner(Handoff.FirstSnapshotSent));
    actions := before + [Inner(Handoff.Start)] + [Inner(Handoff.FirstSnapshotSent)];
    t := Step(cfg, configured, started, Inner(Handoff.FirstSnapshotSent));
  }

  /** The value of the first message is still pending when the loop waits. */
  lemma PendingWhileWaiting(cfg: Config, configured: Duration, input: Input)
    returns (actions: seq<Action>, s: State)
    requires IntervalOf(cfg, input).Some?
    ensures Run(cfg, configured, INITIAL, actions) == Some(s)
    ensures !s.answering && s.handoff.setter.Idle? && s.handoff.channel.Some? && s.handoff.loop.Waiting?
  {
    var before, answered := OneAnswered(cfg, configured, input);
    actions, s := LoopComesToWait(cfg, configured, before, answered);
  }

  /** A call that has found the channel full loses the value to the waiting loop. */
  lemma LosesValue(cfg: Config, configured: Duration, before: seq<Action>, s: State) returns (actions: seq<Action>)
    requires Run(cfg, configured, INITIAL, before) == Some(s) && s.answering
    requires s.handoff.setter.Choosing? && s.handoff.channel.Some? && s.handoff.loop.Waiting?
    ensures Run(cfg, configured, INITIAL, actions).Some?
    ensures Stopped(Run(cfg, configured, INITIAL, actions).value)
  {
    Extend(cfg, configured, before, s, Inner(Handoff.SeeFull));
    var s' := Step(cfg, configured, s, Inner(Handoff.SeeFull));
    Extend(cfg, configured, before + [Inner(Handoff.SeeFull)], s', Inner(Handoff.Receive));
    actions := before + [Inner(Handoff.SeeFull)] + [Inner(Handoff.Receive)];
  }

  /** The second message finds the value pending and then loses it to the loop. */
  lemma TwoMessagesStop(cfg: Config, configured: Duration, input: Input) returns (actions: seq<Action>)
    requires IntervalOf(cfg, input).Some?
    ensures Run(cfg, configured, INITIAL, actions).Some?
    ensures Stopped(Run(cfg, configured, INITIAL, actions).value)
  {
    var before, s := PendingWhileWaiting(cfg, configured, input);
    Extend(cfg, configured, before, s, Take(input));
    actions := LosesValue(cfg, configured, before + [Take(input)], Step(cfg, configured, s, Take(input)));
  }

  /** The handler can stop if and only if the lists allow setting the interval. */
  lemma StopsIffAllowed(cfg: Config, configured: Duration)
    ensures (exists actions: seq<Action> ::
              Run(cfg, configured, INITIAL, actions).Some? && Stopped(Run(cfg, configured, INITIAL, actions).value))
       <==> SET_INTERVAL in cfg.allowedOps
  {
    if SET_INTERVAL in cfg.allowedOps {
      OneSecondSets(cfg);
      var actions := TwoMessagesStop(cfg, configured, OneSecond());
    } else {
      forall actions: seq<Action> | Run(cfg, configured, INITIAL, actions).Some?
        ensures !Stopped(Run(cfg, configured, INITIAL, actions).value)
      {
        NeverStops(cfg, configured, actions);
      }
    }
  }

  // ---- coming to rest ----

  /** A run in which no message is taken leads from s to t. */
  ghost predicate Reaches(cfg: Config, configured: Duration, s: State, t: State) {
    exists actions: seq<Action> ::
      (forall a | a in actions :: !a.Take?) && Run(cfg, configured, s, actions) == Some(t)
  }

  /** No message is under way and the hand-off has settled. */
  predicate AtRest(s: State) {
    !s.answering && Handoff.Settled(s.handoff)
  }

  function Inners(steps: seq<Handoff.Action>): seq<Action> {
    seq(|steps|, i requires 0 <= i < |steps| => Inner(steps[i]))
  }

  /** A run of the hand-off without calls is a run of the handler. */
  lemma {:induction false} InnersRun(cfg: Config, configured: Duration, s: State, steps: seq<Handoff.Action>)
    requires Handoff.Run(configured, s.handoff, steps).Some? && forall a | a in steps :: !a.Call?
    ensures Run(cfg, configured, s, Inners(steps))
         == Some(s.(handoff := Handoff.Run(configured, s.handoff, steps).value))
  {
    if steps != [] {
      var n := |steps| - 1;
      assert steps[n] in steps;
      InnersRun(cfg, configured, s, steps[..n]);
      assert Inners(steps)[..n] == Inners(steps[..n]);
    }
  }

  lemma ComesToRest(cfg: Config, configured: Duration, s: State) returns (t: State)
    requires !Handoff.Blocked(s.handoff) && !s.handoff.loop.Exited?
    requires s.handoff.setter.Resending? ==> s.handoff.channel.None?
    requires s.answering ==> s.taken != []
    ensures Reaches(cfg, configured, s, t) && AtRest(t)
  {
    var settled := Handoff.Settles(configured, s.handoff);
    var steps: seq<Handoff.Action> :|
      (forall a | a in steps :: !a.Call?) && Handoff.Run(configured, s.handoff, steps) == Some(settled);
    InnersRun(cfg, configured, s, steps);
    t := s.(handoff := settled);
    if s.answering {
      var actions := Inners(steps) + [Respond];
      assert actions[..|actions| - 1] == Inners(steps);
      t := Step(cfg, configured, t, Respond);
      assert Run(cfg, configured, s, actions) == Some(t);
      assert forall a | a in actions :: !a.Take?;
    }
  }

  lemma {:induction false} NothingTaken(cfg: Config, configured: Duration, s: State, actions: seq<Action>)
    requires Run(cfg, configured, s, actions).Some? && forall a | a in actions :: !a.Take?
    ensures var t := Run(cfg, configured, s, actions).value;
      t.taken == s.taken && (s.handoff.loop.Exited? ==> t.handoff.loop.Exited?)
  {
    if actions != [] {
      var front, a := actions[..|actions| - 1], actions[|actions| - 1];
      assert a in actions;
      NothingTaken(cfg, configured, s, front);
    }
  }

  /** From a reachable state the handler can come to rest without another message if and only
      if it is not stopped and the loop has not exited. */
  lemma ComesToRestIff(cfg: Config, configured: Duration, actions: seq<Action>)
    requires Run(cfg, configured, INITIAL, actions).Some?
    ensures var s := Run(cfg, configured, INITIAL, actions).value;
      (exists t :: Reaches(cfg, configured, s, t) && AtRest(t)) <==> !Stopped(s) && !s.handoff.loop.Exited?
  {
    var s := Run(cfg, configured, INITIAL, actions).value;
    InvAlways(cfg, configured, actions);
    InsideIsARun(cfg, configured, actions);
    Handoff.InvAlways(configured, Inside(cfg, actions));
    if !Stopped(s) && !s.handoff.loop.Exited? {
      var t := ComesToRest(cfg, configured, s);
    } else {
      forall t | Reaches(cfg, configured, s, t) ensures !AtRest(t) {
        var rest: seq<Action> :| (forall a | a in rest :: !a.Take?) && Run(cfg, configured, s, rest) == Some(t);
        NothingTaken(cfg, configured, s, rest);
        if Stopped(s) {
          StoppedForEver(cfg, configured, s, rest);
        }
      }
    }
  }

  lemma {:induction false} RunConcat(
    cfg: Config, configured: Duration, s: State, first: seq<Action>, t: State, rest: seq<Action>)
    requires Run(cfg, configured, s, first) == Some(t)
    ensures Run(cfg, configured, s, first + rest) == Run(cfg, configured, t, rest)
  {
    if rest == [] {
      assert first + rest == first;
    } else {
      assert (first + rest)[..|first + rest| - 1] == first + rest[..|rest| - 1];
      RunConcat(cfg, configured, s, first, t, rest[..|rest| - 1]);
    }
  }

  /** At rest, however it is reached, every message taken so far has its answer and the ticker
      runs at what the last of them asked for. */
  lemma RestsOnLastMessage(cfg: Config, configured: Duration, actions: seq<Action>, t: State)
    requires Run(cfg, configured, INITIAL, actions).Some?
    requires Reaches(cfg, configured, Run(cfg, configured, INITIAL, actions).value, t) && AtRest(t)
    ensures var taken := Run(cfg, configured, INITIAL, actions).value.taken;
      var asked := Asked(cfg, taken);
      && t.log == Serve(cfg, taken)
      && t.handoff.period
         == Some(if asked == [] then Handoff.StartupInterval(configured) else Handoff.Clamp(asked[|asked| - 1]))
  {
    var s := Run(cfg, configured, INITIAL, actions).value;
    var rest: seq<Action> :| (forall a | a in rest :: !a.Take?) && Run(cfg, configured, s, rest) == Some(t);
    NothingTaken(cfg, configured, s, rest);
    RunConcat(cfg, configured, INITIAL, actions, s, rest);
    InvAlways(cfg, configured, actions + rest);
    TickerFollowsMessages(cfg, configured, actions + rest);
  }
}
