/** sendTelemetry: each snapshot goes to the platform and then to the client-facing feed,
    while other goroutines publish in between. */
module TelemetryFeed {
  import opened Basics
  import opened Protocol

  /** A metrics snapshot; None where collecting it failed. */
  datatype Metrics = Metrics(text: string, marshals: bool)

  /** The publish calls of one snapshot: the feed is tried only after the platform's
      publish has succeeded, and its own failure is merely logged. */
  function SnapshotAttempts(
    agentUuid: string, metrics: Option<Metrics>, stamp: Stamp, evtOk: bool, feedOk: bool)
    : seq<Attempt<Metrics>>
  {
    if metrics.None? then []
    else
      match New(agentUuid, TELEMETRY, metrics.value, metrics.value.marshals, stamp)
      case None => []
      case Some(env) =>
        [Attempt(EvtSubject(agentUuid), env, evtOk)]
        + if evtOk then [Attempt(TelemetrySubject(agentUuid), env, feedOk)] else []
  }

  /** There is a publish call exactly if the snapshot was collected and marshals, and a second
      one exactly if the first succeeded: the snapshot on the platform's subject, and the same
      envelope on the feed. */
  lemma SnapshotPublishes(agentUuid: string, metrics: Option<Metrics>, stamp: Stamp, evtOk: bool, feedOk: bool)
    ensures var made := SnapshotAttempts(agentUuid, metrics, stamp, evtOk, feedOk);
      && |made| == (if metrics.None? || !metrics.value.marshals then 0 else if evtOk then 2 else 1)
      && (made != [] ==>
            && made[0].subject == "agent.vm." + agentUuid + ".evt" && made[0].ok == evtOk
            && made[0].env.v == 1 && made[0].env.msgType == "telemetry"
            && made[0].env.agentUuid == agentUuid && made[0].env.payload == metrics)
      && (|made| == 2 ==>
            && made[1].subject == "vm." + agentUuid + ".telemetry" && made[1].ok == feedOk
            && made[1].env == made[0].env)
  {
  }

  method SendTelemetry(
    client: Client<Metrics>, metrics: Option<Metrics>, stamp: Stamp, evtOk: bool, feedOk: bool)
    modifies client
    ensures client.attempts
         == old(client.attempts) + SnapshotAttempts(client.agentUuid, metrics, stamp, evtOk, feedOk)
  {
    if metrics.None? {
      return;
    }
    var env := New(client.agentUuid, TELEMETRY, metrics.value, metrics.value.marshals, stamp);
    if env.None? {
      return;
    }
    var ok := client.Publish(env.value, evtOk);
    if !ok {
      return;
    }
    var _ := client.PublishToSubject(TelemetrySubject(client.agentUuid), env.value, feedOk);
  }

  // ---- interleaved with the other publishers ----

  /** pending is the envelope the telemetry loop has published to the platform and not yet
      tried on the feed. */
  datatype State<P> = State(attempts: seq<Attempt<P>>, pending: Option<Envelope<P>>)

  datatype Action<P> =
    | ToPlatform(env: Envelope<P>, ok: bool)               // telemetry loop
    | ToFeed(ok: bool)                                     // telemetry loop
    | Other(subject: string, env: Envelope<P>, ok: bool)   // heartbeats, capabilities, results

  predicate Enabled<P>(s: State<P>, a: Action<P>) {
    match a
    case ToPlatform(env, _) => s.pending.None? && env.msgType == TELEMETRY
    case ToFeed(_) => s.pending.Some?
    case Other(_, env, _) => env.msgType != TELEMETRY
  }

  function Step<P>(agentUuid: string, s: State<P>, a: Action<P>): State<P>
    requires Enabled(s, a)
  {
    match a
    case ToPlatform(env, ok) =>
      State(s.attempts + [Attempt(EvtSubject(agentUuid), env, ok)], if ok then Some(env) else None)
    case ToFeed(ok) =>
      State(s.attempts + [Attempt(TelemetrySubject(agentUuid), s.pending.value, ok)], None)
    case Other(subject, env, ok) => s.(attempts := s.attempts + [Attempt(subject, env, ok)])
  }

  function Run<P>(agentUuid: string, actions: seq<Action<P>>): Option<State<P>> {
    if actions == [] then Some(State([], None))
    else
      match Run(agentUuid, actions[..|actions| - 1])
      case None => None
      case Some(s) =>
        var a := actions[|actions| - 1];
        if Enabled(s, a) then Some(Step(agentUuid, s, a)) else None
  }

  /** One snapshot of the sequential code is at most two steps of the telemetry loop. */
  lemma SnapshotIsTwoSteps(
    agentUuid: string, s: State<Metrics>, metrics: Option<Metrics>, stamp: Stamp, evtOk: bool, feedOk: bool)
    requires s.pending.None?
    ensures var made := SnapshotAttempts(agentUuid, metrics, stamp, evtOk, feedOk);
      && |made| <= 2
      && (|made| == 1 ==>
            && Enabled(s, ToPlatform(made[0].env, evtOk))
            && Step(agentUuid, s, ToPlatform(made[0].env, evtOk)) == State(s.attempts + made, None))
      && (|made| == 2 ==>
            && Enabled(s, ToPlatform(made[0].env, evtOk))
            && var mid := Step(agentUuid, s, ToPlatform(made[0].env, evtOk));
               Enabled(mid, ToFeed(feedOk)) && Step(agentUuid, mid, ToFeed(feedOk)) == State(s.attempts + made, None))
  {
    var made := SnapshotAttempts(agentUuid, metrics, stamp, evtOk, feedOk);
    if |made| == 2 {
      assert s.attempts + made == s.attempts + [made[0]] + [made[1]];
    }
  }

  /** The telemetry on the platform's subject. */
  function OnPlatform<P>(agentUuid: string, s: State<P>): seq<Envelope<P>> {
    OfType(Delivered(s.attempts, EvtSubject(agentUuid)), TELEMETRY)
  }

  /** Everything on the client-facing feed. */
  function OnFeed<P>(agentUuid: string, s: State<P>): seq<Envelope<P>> {
    Delivered(s.attempts, TelemetrySubject(agentUuid))
  }

  /** A snapshot that is collected, marshals and is published twice adds one envelope with its
      payload to the platform's telemetry, and the same one to the feed. */
  lemma SnapshotDelivered(
    agentUuid: string, attempts: seq<Attempt<Metrics>>, metrics: Metrics, stamp: Stamp) returns (env: Envelope<Metrics>)
    requires metrics.marshals
    ensures env.msgType == "telemetry" && env.agentUuid == agentUuid && env.payload == Some(metrics)
    ensures var before := State(attempts, None);
      var after := State(attempts + SnapshotAttempts(agentUuid, Some(metrics), stamp, true, true), None);
      && OnPlatform(agentUuid, after) == OnPlatform(agentUuid, before) + [env]
      && OnFeed(agentUuid, after) == OnFeed(agentUuid, before) + [env]
  {
    SnapshotPublishes(agentUuid, Some(metrics), stamp, true, true);
    SubjectsDiffer(agentUuid);
    var made := SnapshotAttempts(agentUuid, Some(metrics), stamp, true, true);
    env := made[0].env;
    assert attempts + made == attempts + [made[0]] + [made[1]];
    TwoDelivered(attempts, made[0], made[1], EvtSubject(agentUuid));
    TwoDelivered(attempts, made[0], made[1], TelemetrySubject(agentUuid));
    OfTypeExtend(Delivered(attempts, EvtSubject(agentUuid)), env, TELEMETRY);
  }

  lemma TwoDelivered<P>(attempts: seq<Attempt<P>>, a: Attempt<P>, b: Attempt<P>, subject: string)
    requires a.ok && b.ok && a.subject != b.subject && (a.subject == subject || b.subject == subject)
    ensures Delivered(attempts + [a] + [b], subject)
         == Delivered(attempts, subject) + [if a.subject == subject then a.env else b.env]
  {
    DeliveredExtend(attempts, a, subject);
    DeliveredExtend(attempts + [a], b, subject);
  }

  /** The feed trails the platform by at most the pending envelope. */
  ghost predicate Trailing<P(!new)>(platform: seq<Envelope<P>>, feed: seq<Envelope<P>>, pending: Option<Envelope<P>>) {
    if pending.None? then IsSubsequence(feed, platform)
    else
      && platform != []
      && platform[|platform| - 1] == pending.value
      && IsSubsequence(feed, platform[..|platform| - 1])
      && pending.value.msgType == TELEMETRY
  }

  ghost predicate Trails<P(!new)>(agentUuid: string, s: State<P>) {
    Trailing(OnPlatform(agentUuid, s), OfType(OnFeed(agentUuid, s), TELEMETRY), s.pending)
  }

  lemma PublishedNext<P(!new)>(platform: seq<Envelope<P>>, feed: seq<Envelope<P>>, env: Envelope<P>)
    requires IsSubsequence(feed, platform) && env.msgType == TELEMETRY
    ensures Trailing(platform + [env], feed, Some(env))
  {
    assert (platform + [env])[..|platform|] == platform;
  }

  lemma PendingDone<P(!new)>(platform: seq<Envelope<P>>, feed: seq<Envelope<P>>, env: Envelope<P>)
    requires Trailing(platform, feed, Some(env))
    ensures IsSubsequence(feed + [env], platform)
    ensures IsSubsequence(feed, platform)
  {
    var front := platform[..|platform| - 1];
    assert platform == front + [env];
    SubsequenceTake(feed, front, env);
    SubsequenceSkip(feed, front, env);
  }

  /** What one more publish call adds on either side. */
  lemma AfterAttempt<P>(agentUuid: string, s: State<P>, s': State<P>, a: Attempt<P>)
    requires s'.attempts == s.attempts + [a]
    ensures OnPlatform(agentUuid, s')
         == if a.ok && a.subject == EvtSubject(agentUuid) && a.env.msgType == TELEMETRY
            then OnPlatform(agentUuid, s) + [a.env] else OnPlatform(agentUuid, s)
    ensures OfType(OnFeed(agentUuid, s'), TELEMETRY)
         == if a.ok && a.subject == TelemetrySubject(agentUuid) && a.env.msgType == TELEMETRY
            then OfType(OnFeed(agentUuid, s), TELEMETRY) + [a.env] else OfType(OnFeed(agentUuid, s), TELEMETRY)
  {
    DeliveredExtend(s.attempts, a, EvtSubject(agentUuid));
    DeliveredExtend(s.attempts, a, TelemetrySubject(agentUuid));
    OfTypeExtend(Delivered(s.attempts, EvtSubject(agentUuid)), a.env, TELEMETRY);
    OfTypeExtend(OnFeed(agentUuid, s), a.env, TELEMETRY);
  }

  /** The publish call a step makes. */
  function AttemptOf<P>(agentUuid: string, s: State<P>, a: Action<P>): Attempt<P>
    requires Enabled(s, a)
  {
    match a
    case ToPlatform(env, ok) => Attempt(EvtSubject(agentUuid), env, ok)
    case ToFeed(ok) => Attempt(TelemetrySubject(agentUuid), s.pending.value, ok)
    case Other(subject, env, ok) => Attempt(subject, env, ok)
  }

  lemma StepKeepsTrailing<P(!new)>(agentUuid: string, s: State<P>, a: Action<P>)
    requires Trails(agentUuid, s) && Enabled(s, a)
    ensures Trails(agentUuid, Step(agentUuid, s, a))
  {
    SubjectsDiffer(agentUuid);
    AfterAttempt(agentUuid, s, Step(agentUuid, s, a), AttemptOf(agentUuid, s, a));
    var platform, feed := OnPlatform(agentUuid, s), OfType(OnFeed(agentUuid, s), TELEMETRY);
    match a
    case ToPlatform(env, ok) => PublishedNext(platform, feed, env);
    case ToFeed(ok) => PendingDone(platform, feed, s.pending.value);
    case Other(_, _, _) =>
  }

  lemma {:induction false} TrailsAlways<P(!new)>(agentUuid: string, actions: seq<Action<P>>)
    requires Run(agentUuid, actions).Some?
    ensures Trails(agentUuid, Run(agentUuid, actions).value)
  {
    if actions != [] {
      TrailsAlways(agentUuid, actions[..|actions| - 1]);
      StepKeepsTrailing(agentUuid, Run(agentUuid, actions[..|actions| - 1]).value, actions[|actions| - 1]);
    }
  }

  /** At every point of every run, with publishes failing at will, the telemetry on the
      client feed is an in-order selection of the telemetry on the platform's subject,
      envelope for envelope. */
  lemma FeedIsSubsequence<P(!new)>(agentUuid: string, actions: seq<Action<P>>)
    requires Run(agentUuid, actions).Some?
    ensures var s := Run(agentUuid, actions).value;
      IsSubsequence(OfType(OnFeed(agentUuid, s), TELEMETRY), OnPlatform(agentUuid, s))
  {
    TrailsAlways(agentUuid, actions);
    var s := Run(agentUuid, actions).value;
    if s.pending.Some? {
      PendingDone(OnPlatform(agentUuid, s), OfType(OnFeed(agentUuid, s), TELEMETRY), s.pending.value);
    }
  }

  /** Some other publisher has put a message on the feed's subject: a result whose command
      asked for its reply there. */
  predicate Intrudes<P>(agentUuid: string, actions: seq<Action<P>>) {
    exists k | 0 <= k < |actions| ::
      actions[k].Other? && actions[k].ok && actions[k].subject == TelemetrySubject(agentUuid)
  }

  /** Everything on the feed, whatever its type, is a selection of the platform's telemetry
      if and only if no other publisher's message reached the feed's subject. */
  lemma WholeFeedIffNoIntruder<P(!new)>(agentUuid: string, actions: seq<Action<P>>)
    requires Run(agentUuid, actions).Some?
    ensures var s := Run(agentUuid, actions).value;
      IsSubsequence(OnFeed(agentUuid, s), OnPlatform(agentUuid, s)) <==> !Intrudes(agentUuid, actions)
  {
    var s := Run(agentUuid, actions).value;
    FeedIsSubsequence(agentUuid, actions);
    OnlyTelemetryIffNoIntruder(agentUuid, actions);
    if AllTelemetry(OnFeed(agentUuid, s)) {
      OfTypeWhole(OnFeed(agentUuid, s));
    } else if IsSubsequence(OnFeed(agentUuid, s), OnPlatform(agentUuid, s)) {
      var e :| e in OnFeed(agentUuid, s) && e.msgType != TELEMETRY;
      SubsequenceMember(OnFeed(agentUuid, s), OnPlatform(agentUuid, s), e);
      OfTypeMember(Delivered(s.attempts, EvtSubject(agentUuid)), e);
    }
  }

  predicate AllTelemetry<P>(envs: seq<Envelope<P>>) {
    forall i | 0 <= i < |envs| :: envs[i].msgType == TELEMETRY
  }

  lemma {:induction false} OnlyTelemetryIffNoIntruder<P(!new)>(agentUuid: string, actions: seq<Action<P>>)
    requires Run(agentUuid, actions).Some?
    ensures AllTelemetry(OnFeed(agentUuid, Run(agentUuid, actions).value)) <==> !Intrudes(agentUuid, actions)
  {
    if actions != [] {
      SubjectsDiffer(agentUuid);
      var front, a := actions[..|actions| - 1], actions[|actions| - 1];
      OnlyTelemetryIffNoIntruder(agentUuid, front);
      TrailsAlways(agentUuid, front);
      var s := Run(agentUuid, front).value;
      var added := AttemptOf(agentUuid, s, a);
      DeliveredExtend(s.attempts, added, TelemetrySubject(agentUuid));
      AllTelemetryExtend(OnFeed(agentUuid, s), added.env);
      IntrudesExtend(agentUuid, front, a);
      assert actions == front + [a];
    }
  }

  lemma AllTelemetryExtend<P>(envs: seq<Envelope<P>>, e: Envelope<P>)
    ensures AllTelemetry(envs + [e]) <==> AllTelemetry(envs) && e.msgType == TELEMETRY
  {
    assert (envs + [e])[|envs|] == e;
    assert forall i | 0 <= i < |envs| :: (envs + [e])[i] == envs[i];
  }

  lemma IntrudesExtend<P>(agentUuid: string, front: seq<Action<P>>, a: Action<P>)
    ensures Intrudes(agentUuid, front + [a]) <==>
      Intrudes(agentUuid, front) || (a.Other? && a.ok && a.subject == TelemetrySubject(agentUuid))
  {
    var all := front + [a];
    assert all[|front|] == a;
    assert forall i | 0 <= i < |front| :: all[i] == front[i];
  }

  lemma {:induction false} OfTypeWhole<P>(envs: seq<Envelope<P>>)
    requires AllTelemetry(envs)
    ensures OfType(envs, TELEMETRY) == envs
  {
    if envs != [] {
      OfTypeWhole(envs[..|envs| - 1]);
    }
  }

  lemma {:induction false} OfTypeMember<P>(envs: seq<Envelope<P>>, e: Envelope<P>)
    requires e in OfType(envs, TELEMETRY)
    ensures e.msgType == TELEMETRY
  {
    if e !in OfType(envs[..|envs| - 1], TELEMETRY) {
    } else {
      OfTypeMember(envs[..|envs| - 1], e);
    }
  }

  lemma {:induction false} SubsequenceMember<T(!new)>(a: seq<T>, b: seq<T>, x: T)
    requires IsSubsequence(a, b) && x in a
    ensures x in b
  {
    if b != [] {
      var b' := b[..|b| - 1];
      if IsSubsequence(a, b') {
        SubsequenceMember(a, b', x);
      } else if x != a[|a| - 1] {
        assert x in a[..|a| - 1];
        SubsequenceMember(a[..|a| - 1], b', x);
      }
    }
  }
}
