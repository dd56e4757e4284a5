/** The agent's command path: the subscription filter, the handler and the wiring that
    gives dispatcher and publisher the same lists. */
module CommandHandler {
  import opened Basics
  import opened Capabilities
  import opened Dispatcher
  import Feed = TelemetryFeed
  import Protocol
  import Text

  /** A raw message on the cmd subject, after the attempt to parse it. */
  datatype Message = Unparseable | Parsed(env: Envelope)

  /** A message and what the surroundings answer while it is handled. */
  datatype Input = Input(msg: Message, w: World)

  type Attempt = Protocol.Attempt<Payload>

  /** What a run of messages leaves behind: the handler's publish calls and the effects. */
  datatype Log = Log(attempts: seq<Attempt>, effects: seq<Effect>)

  predicate Accepted(msg: Message) {
    msg.Parsed? && msg.env.v == 1
  }

  function ReplySubject(cfg: Config, env: Envelope): string {
    if env.replyTo != "" then env.replyTo else Protocol.EvtSubject(cfg.agentUuid)
  }

  /** The effects of one input. */
  function EffectsOf(cfg: Config, input: Input): seq<Effect> {
    if Accepted(input.msg) then OutcomeOf(cfg, input.msg.env, input.w).effects else []
  }

  /** The publish calls for one input. */
  function AttemptsOf(cfg: Config, input: Input): seq<Attempt> {
    if !Accepted(input.msg) then []
    else
      var env := input.msg.env;
      [Protocol.Attempt(ReplySubject(cfg, env), ResultFor(cfg, env, OutcomeOf(cfg, env, input.w), input.w.stamp),
                        input.w.brokerOk)]
  }

  /** A run of messages, handled one after the other. */
  function Serve(cfg: Config, inputs: seq<Input>): Log {
    if inputs == [] then Log([], [])
    else
      var log, input := Serve(cfg, inputs[..|inputs| - 1]), inputs[|inputs| - 1];
      Log(log.attempts + AttemptsOf(cfg, input), log.effects + EffectsOf(cfg, input))
  }

  class Agent {
    const cfg: Config
    const dispatcher: Dispatcher
    const client: Protocol.Client<Payload>

    ghost predicate Valid()
      reads this
    {
      && dispatcher.Valid()
      && dispatcher.cfg == cfg
      && client.agentUuid == cfg.agentUuid
    }

    /** What has happened so far. */
    function Now(): Log
      reads dispatcher, client
    {
      Log(client.attempts, dispatcher.history)
    }

    constructor (cfg: Config)
      ensures Valid() && this.cfg == cfg && Now() == Serve(cfg, [])
      ensures fresh(dispatcher) && fresh(client)
    {
      this.cfg := cfg;
      client := new Protocol.Client(cfg.agentUuid);
      dispatcher := new Dispatcher(cfg);
    }

    /** The subscription callback; the past is any run of messages it has served. */
    method OnMessage(input: Input, ghost past: seq<Input>)
      requires Valid() && Now() == Serve(cfg, past)
      modifies dispatcher, client
      ensures Valid() && Now() == Serve(cfg, past + [input])
    {
      assert (past + [input])[..|past|] == past;
      if input.msg.Unparseable? {
        return;
      }
      var env := input.msg.env;
      if env.v != 1 {
        return;
      }
      var result := dispatcher.Dispatch(env, input.w);
      if env.replyTo != "" {
        var _ := client.PublishToSubject(env.replyTo, result, input.w.brokerOk);
      } else {
        var _ := client.Publish(result, input.w.brokerOk);
      }
    }
  }

  // ---- a sample message ----

  const SAMPLE_STAMP := Protocol.Stamp([0, 0, 0, 0, 0, 0, 0, 0, 0, 0, 0, 0, 0, 0, 0, 0], 0)

  /** A message that asks for op, in surroundings in which every execution succeeds. */
  function Asking(op: string, p: Params, moduleAnswer: Result<ModuleAnswer, string>): Input {
    Input(
      Parsed(Protocol.Envelope(1, "c1", "command", "vm", "", 0, "", None)),
      World(raw => Ok(CommandPayload(op, "params")), text => Ok(p), false, moduleAnswer, None, c => c,
            ExecAnswer("", "", None), ExecAnswer("", "", None), x => x, [], SAMPLE_STAMP, true))
  }

  /** It is handled by running op, if op is allowed. */
  lemma SampleOutcome(cfg: Config, op: string, p: Params, moduleAnswer: Result<ModuleAnswer, string>)
    requires op in cfg.allowedOps
    ensures var input := Asking(op, p, moduleAnswer);
      && Accepted(input.msg)
      && OutcomeOf(cfg, input.msg.env, input.w).effects == RunAnswer(cfg, op, p, input.w).effects
      && match RunAnswer(cfg, op, p, input.w).result
         case Err(e) => OutcomeOf(cfg, input.msg.env, input.w).output == None
         case Ok(output) =>
           && OutcomeOf(cfg, input.msg.env, input.w).status == Protocol.COMPLETED
           && OutcomeOf(cfg, input.msg.env, input.w).output == Some(output)
  {
    Text.TrimSpaceOf("", "params", "");
    assert "" + "params" + "" == "params";
  }

  /** What the subscription's filter lets through: version 1 envelopes. */
  lemma FilterIs(cfg: Config, input: Input)
    ensures input.msg == Unparseable || input.msg.env.v != 1 ==> Serve(cfg, [input]) == Log([], [])
    ensures input.msg.Parsed? && input.msg.env.v == 1 ==> |Serve(cfg, [input]).attempts| == 1
  {
    assert [input][..0] == [];
  }

  /** A run of messages leaves what its messages leave, in their order. */
  lemma ServeExtend(cfg: Config, inputs: seq<Input>, input: Input)
    ensures Serve(cfg, []) == Log([], [])
    ensures Serve(cfg, inputs + [input]).attempts == Serve(cfg, inputs).attempts + AttemptsOf(cfg, input)
    ensures Serve(cfg, inputs + [input]).effects == Serve(cfg, inputs).effects + EffectsOf(cfg, input)
  {
    assert (inputs + [input])[..|inputs|] == inputs;
  }

  /** The effects of a message are those of the operation it gets to run, and none if it is
      dropped, not permitted or cannot be decoded. */
  lemma EffectsAre(cfg: Config, input: Input)
    ensures EffectsOf(cfg, input)
         == if input.msg.Unparseable? || input.msg.env.v != 1 then []
            else
              match input.w.decodeCommand(input.msg.env.payload)
              case Err(_) => []
              case Ok(cmd) =>
                if cmd.operation !in cfg.allowedOps then []
                else
                  match DecodedParams(cmd.params, input.w)
                  case Err(_) => []
                  case Ok(p) => RunAnswer(cfg, cmd.operation, p, input.w).effects
  {
  }

  lemma ServeOne(cfg: Config, input: Input)
    ensures Serve(cfg, [input]).effects == EffectsOf(cfg, input)
    ensures Serve(cfg, [input]).attempts == AttemptsOf(cfg, input)
  {
    assert [input][..0] == [];
  }

  // ---- one result per accepted command ----

  /** The messages that pass the filter, in arrival order. */
  function AcceptedOf(inputs: seq<Input>): (accepted: seq<Input>)
    ensures forall i | 0 <= i < |accepted| :: Accepted(accepted[i].msg) && accepted[i] in inputs
  {
    if inputs == [] then []
    else
      var earlier, input := AcceptedOf(inputs[..|inputs| - 1]), inputs[|inputs| - 1];
      if Accepted(input.msg) then earlier + [input] else earlier
  }

  /** The envelope carries a result for this command. */
  predicate EchoesCommand(result: Envelope, command: Envelope) {
    && result.v == 1
    && result.msgType == Protocol.RESULT
    && result.payload.Some? && result.payload.value.ResultOf?
    && result.payload.value.commandId == command.id
  }

  /** The envelope is the agent's result for the command, with this status, reason and output. */
  predicate Carries(
    cfg: Config, result: Envelope, command: Envelope, status: string, reason: Reason, output: Option<Output>)
  {
    && result.v == 1 && result.msgType == "result" && result.agentUuid == cfg.agentUuid
    && result.payload == Some(ResultOf(command.id, status, reason, output))
  }

  /** What the answer to a command says: the operation's output if it returned one that can
      be marshalled, an empty envelope if it cannot, and otherwise why there is none. */
  predicate SaysOutcome(cfg: Config, env: Envelope, w: World, result: Envelope) {
    match w.decodeCommand(env.payload)
    case Err(e) => Carries(cfg, result, env, "rejected", PayloadUndecodable(e), None)
    case Ok(cmd) =>
      if cmd.operation !in cfg.allowedOps then
        Carries(cfg, result, env, "rejected", NotPermitted(cmd.operation), None)
      else
        match DecodedParams(cmd.params, w)
        case Err(e) => Carries(cfg, result, env, "rejected", ParamsUndecodable(e), None)
        case Ok(p) =>
          match RunAnswer(cfg, cmd.operation, p, w).result
          case Err(e) => Carries(cfg, result, env, "failed", RunFailed(e), None)
          case Ok(x) =>
            if x.Module? && NotFinite in x.numbers then
              result == Protocol.Envelope(0, "", "", "", "", 0, "", None)
            else
              Carries(cfg, result, env, "completed", NoReason, Some(x))
  }

  /** a is the publish call owed to input: on the subject it asked for, and saying what came
      of it; it echoes the command's id exactly when the output can be marshalled. */
  predicate Answers(cfg: Config, input: Input, a: Attempt)
    requires Accepted(input.msg)
  {
    var env := input.msg.env;
    && a.subject == (if env.replyTo != "" then env.replyTo else "agent.vm." + cfg.agentUuid + ".evt")
    && a.ok == input.w.brokerOk
    && SaysOutcome(cfg, env, input.w, a.env)
    && (EchoesCommand(a.env, env) <==> Marshals(OutcomeOf(cfg, env, input.w).output))
  }

  lemma OneAnswer(cfg: Config, input: Input)
    requires Accepted(input.msg)
    ensures |AttemptsOf(cfg, input)| == 1
    ensures Answers(cfg, input, AttemptsOf(cfg, input)[0])
  {
    var env, o := input.msg.env, OutcomeOf(cfg, input.msg.env, input.w);
    MarshalsIff(o.output);
    ResultSaysOutcome(cfg, env, input.w);
  }

  lemma MarshalsIff(output: Option<Output>)
    ensures Marshals(output) <==> !(output.Some? && output.value.Module? && NotFinite in output.value.numbers)
  {
    if output.Some? && output.value.Module? {
      assert forall x | x in output.value.numbers :: x.Finite? || x == NotFinite;
    }
  }

  lemma ResultSaysOutcome(cfg: Config, env: Envelope, w: World)
    ensures SaysOutcome(cfg, env, w, ResultFor(cfg, env, OutcomeOf(cfg, env, w), w.stamp))
  {
    MarshalsIff(OutcomeOf(cfg, env, w).output);
  }

  /** Over any run of messages the handler makes exactly one publish call for each accepted
      one, in arrival order; what the filter drops leaves no trace. */
  lemma {:induction false} OneResultPerAcceptedCommand(cfg: Config, inputs: seq<Input>)
    ensures |Serve(cfg, inputs).attempts| == |AcceptedOf(inputs)|
    ensures forall k | 0 <= k < |AcceptedOf(inputs)| ::
              Answers(cfg, AcceptedOf(inputs)[k], Serve(cfg, inputs).attempts[k])
  {
    if inputs != [] {
      var front, input := inputs[..|inputs| - 1], inputs[|inputs| - 1];
      OneResultPerAcceptedCommand(cfg, front);
      if Accepted(input.msg) {
        OneAnswer(cfg, input);
      }
    }
  }

  /** Only an output that cannot be marshalled loses the id; a command that is rejected or
      fails always gets its answer. */
  lemma OnlyCompletedCanLoseId(cfg: Config, inputs: seq<Input>, k: nat)
    requires k < |AcceptedOf(inputs)|
    ensures k < |Serve(cfg, inputs).attempts|
    ensures var env, w := AcceptedOf(inputs)[k].msg.env, AcceptedOf(inputs)[k].w;
      OutcomeOf(cfg, env, w).status != Protocol.COMPLETED ==> EchoesCommand(Serve(cfg, inputs).attempts[k].env, env)
  {
    OneResultPerAcceptedCommand(cfg, inputs);
    var input := AcceptedOf(inputs)[k];
    assert Answers(cfg, input, Serve(cfg, inputs).attempts[k]);
    RejectedUntouched(cfg, input.msg.env, input.w);
  }

  /** The operations whose output has float64 fields. */
  const FLOAT_OPS: set<string> := {"system.metrics", "system.cpu", "system.memory", "system.disk"}

  /** An accepted command whose answer does not carry its id. */
  predicate LosesId(cfg: Config, input: Input) {
    Accepted(input.msg) && !EchoesCommand(AttemptsOf(cfg, input)[0].env, input.msg.env)
  }

  /** A float operation returns the floats of its module function, whatever they are. */
  lemma FloatOpResult(cfg: Config, op: string, p: Params, w: World)
    requires op in FLOAT_OPS
    ensures w.moduleAnswer.Ok? ==>
      RunAnswer(cfg, op, p, w).result == Ok(Module(w.moduleAnswer.value.text, w.moduleAnswer.value.numbers))
  {
  }

  /** Every other operation returns something that marshals. */
  lemma OtherOpResult(cfg: Config, op: string, p: Params, w: World)
    requires op !in FLOAT_OPS
    ensures Marshals(match RunAnswer(cfg, op, p, w).result case Ok(o) => Some(o) case Err(_) => None)
  {
  }

  /** A command that completes and whose only answer is the zero envelope, because a float
      of its output is not finite. */
  lemma CompletedWithoutId(cfg: Config, op: string) returns (input: Input)
    requires op in cfg.allowedOps && op in FLOAT_OPS
    ensures Accepted(input.msg) && OutcomeOf(cfg, input.msg.env, input.w).status == Protocol.COMPLETED
    ensures Serve(cfg, [input]).attempts
         == [Protocol.Attempt(Protocol.EvtSubject(cfg.agentUuid), Protocol.ZeroEnvelope(), true)]
    ensures LosesId(cfg, input)
  {
    var answer := Ok(ModuleAnswer("", [NotFinite]));
    input := Asking(op, NO_PARAMS, answer);
    SampleOutcome(cfg, op, NO_PARAMS, answer);
    FloatOpResult(cfg, op, NO_PARAMS, input.w);
    assert NotFinite in [NotFinite];
    ServeOne(cfg, input);
    UnmarshalledAnswer(cfg, input);
  }

  /** The answer to a command whose output does not marshal. */
  lemma UnmarshalledAnswer(cfg: Config, input: Input)
    requires Accepted(input.msg) && !Marshals(OutcomeOf(cfg, input.msg.env, input.w).output)
    ensures AttemptsOf(cfg, input)
         == [Protocol.Attempt(ReplySubject(cfg, input.msg.env), Protocol.ZeroEnvelope(), input.w.brokerOk)]
    ensures LosesId(cfg, input)
  {
    OneAnswer(cfg, input);
  }

  /** A command for any other operation echoes its id, and so does one that cannot be decoded. */
  lemma OtherOpsEcho(cfg: Config, input: Input)
    requires Accepted(input.msg)
    requires var cmd := input.w.decodeCommand(input.msg.env.payload);
      cmd.Err? || cmd.value.operation !in FLOAT_OPS || cmd.value.operation !in cfg.allowedOps
    ensures !LosesId(cfg, input)
  {
    OneAnswer(cfg, input);
    var cmd := input.w.decodeCommand(input.msg.env.payload);
    if cmd.Ok? && cmd.value.operation in cfg.allowedOps {
      var p := DecodedParams(cmd.value.params, input.w);
      if p.Ok? {
        OtherOpResult(cfg, cmd.value.operation, p.value, input.w);
      }
    }
  }

  /** Some command can lose its id if and only if an operation with float64 output is allowed. */
  lemma LosesIdIff(cfg: Config)
    ensures (exists input :: LosesId(cfg, input)) <==> (exists op | op in cfg.allowedOps :: op in FLOAT_OPS)
  {
    if op :| op in cfg.allowedOps && op in FLOAT_OPS {
      var input := CompletedWithoutId(cfg, op);
    } else {
      forall input: Input ensures !LosesId(cfg, input) {
        if Accepted(input.msg) {
          OtherOpsEcho(cfg, input);
        }
      }
    }
  }

  // ---- results on the telemetry feed ----

  /** A result is published on the client-facing feed exactly if the command asked for that. */
  lemma AnswerOnFeedIff(cfg: Config, input: Input)
    requires Accepted(input.msg)
    ensures AttemptsOf(cfg, input)[0].subject == Protocol.TelemetrySubject(cfg.agentUuid)
       <==> input.msg.env.replyTo == Protocol.TelemetrySubject(cfg.agentUuid)
  {
    Protocol.SubjectsDiffer(cfg.agentUuid);
    assert |Protocol.TelemetrySubject(cfg.agentUuid)| > 0;
  }

  function AsAction(a: Attempt): Feed.Action<Payload> {
    Feed.Other(a.subject, a.env, a.ok)
  }

  /** In a run of the agent's publishers, everything but the telemetry loop's own calls is on
      the evt subject (heartbeats, capabilities) or answers one of the messages served. */
  ghost predicate PublishedBeside(cfg: Config, actions: seq<Feed.Action<Payload>>, served: seq<Input>) {
    && (forall a | a in actions && a.Other? ::
          || a.subject == Protocol.EvtSubject(cfg.agentUuid)
          || exists input | input in served :: Accepted(input.msg) && a == AsAction(AttemptsOf(cfg, input)[0]))
    && (forall input | input in served && Accepted(input.msg) :: AsAction(AttemptsOf(cfg, input)[0]) in actions)
  }

  /** A served command whose delivered answer was asked for on the feed. */
  ghost predicate AnswersOnFeed(cfg: Config, served: seq<Input>) {
    exists input | input in served ::
      Accepted(input.msg) && input.w.brokerOk && input.msg.env.replyTo == Protocol.TelemetrySubject(cfg.agentUuid)
  }

  /** The feed carries nothing but an in-order selection of the platform's telemetry if and
      only if no command whose answer was delivered gave the feed as its reply subject. */
  lemma WholeFeedIffNoReplyToFeed(cfg: Config, actions: seq<Feed.Action<Payload>>, served: seq<Input>)
    requires Feed.Run(cfg.agentUuid, actions).Some? && PublishedBeside(cfg, actions, served)
    ensures var s := Feed.Run(cfg.agentUuid, actions).value;
      IsSubsequence(Feed.OnFeed(cfg.agentUuid, s), Feed.OnPlatform(cfg.agentUuid, s)) <==> !AnswersOnFeed(cfg, served)
  {
    Feed.WholeFeedIffNoIntruder(cfg.agentUuid, actions);
    IntrudesIffAnswersOnFeed(cfg, actions, served);
  }

  lemma IntrudesIffAnswersOnFeed(cfg: Config, actions: seq<Feed.Action<Payload>>, served: seq<Input>)
    requires PublishedBeside(cfg, actions, served)
    ensures Feed.Intrudes(cfg.agentUuid, actions) <==> AnswersOnFeed(cfg, served)
  {
    if Feed.Intrudes(cfg.agentUuid, actions) {
      Protocol.SubjectsDiffer(cfg.agentUuid);
      var k :| 0 <= k < |actions| && actions[k].Other? && actions[k].ok
            && actions[k].subject == Protocol.TelemetrySubject(cfg.agentUuid);
      assert actions[k] in actions;
      var input :| input in served && Accepted(input.msg) && actions[k] == AsAction(AttemptsOf(cfg, input)[0]);
      AnswerOnFeedIff(cfg, input);
    }
    if AnswersOnFeed(cfg, served) {
      var input :| input in served && Accepted(input.msg) && input.w.brokerOk
                && input.msg.env.replyTo == Protocol.TelemetrySubject(cfg.agentUuid);
      AnswerOnFeedIff(cfg, input);
      var a := AsAction(AttemptsOf(cfg, input)[0]);
      var k :| 0 <= k < |actions| && actions[k] == a;
    }
  }

  /** One delivered answer is enough: a run of the publishers with a result on the feed. */
  lemma AnswerReachesFeed(cfg: Config, input: Input)
    requires Accepted(input.msg) && input.w.brokerOk
    requires input.msg.env.replyTo == Protocol.TelemetrySubject(cfg.agentUuid)
    ensures var actions := [AsAction(AttemptsOf(cfg, input)[0])];
      && Feed.Run(cfg.agentUuid, actions).Some?
      && var s := Feed.Run(cfg.agentUuid, actions).value;
         !IsSubsequence(Feed.OnFeed(cfg.agentUuid, s), Feed.OnPlatform(cfg.agentUuid, s))
  {
    var a := AsAction(AttemptsOf(cfg, input)[0]);
    assert [a][..0] == [];
    ResultIsNotTelemetry(cfg, input);
    assert PublishedBeside(cfg, [a], [input]);
    WholeFeedIffNoReplyToFeed(cfg, [a], [input]);
  }

  lemma ResultIsNotTelemetry(cfg: Config, input: Input)
    requires Accepted(input.msg)
    ensures AttemptsOf(cfg, input)[0].env.msgType != Protocol.TELEMETRY
  {
    assert Protocol.RESULT[0] == 'r' && Protocol.TELEMETRY[0] == 't';
  }

  // ---- the executor's history ----

  /** An execution that the configured lists permit: a fixed argument list of an allowed
      operation, or a listed command through an allowed exec. */
  predicate Permitted(cfg: Config, e: Effect)
    requires e.Execute?
  {
    && e.op in cfg.allowedOps
    && (|| (e.op == "vm.reboot" && e.command == "shutdown" && e.args == ["/r", "/t", "0"])
        || (e.op == "vm.reboot" && e.command == "systemctl" && e.args == ["reboot"])
        || (e.op == "vm.shutdown" && e.command == "shutdown" && e.args == ["/s", "/t", "0"])
        || (e.op == "vm.shutdown" && e.command == "systemctl" && e.args == ["poweroff"])
        || e == AptGet("update", e.ok)
        || e == AptGet("upgrade", e.ok)
        || (e.op == "exec" && e.command in cfg.allowedCommands))
  }

  lemma UpdatePermitted(cfg: Config, w: World)
    requires "system.update" in cfg.allowedOps
    ensures forall e | e in UpdateAnswer(w).effects && e.Execute? :: Permitted(cfg, e)
  {
  }

  lemma OtherPermitted(cfg: Config, op: string, p: Params, w: World)
    requires op in cfg.allowedOps && op != "system.update"
    ensures forall e | e in RunAnswer(cfg, op, p, w).effects && e.Execute? :: Permitted(cfg, e)
  {
  }

  lemma RunPermitted(cfg: Config, op: string, p: Params, w: World)
    requires op in cfg.allowedOps
    ensures forall e | e in RunAnswer(cfg, op, p, w).effects && e.Execute? :: Permitted(cfg, e)
  {
    if op == "system.update" {
      RunIsUpdate(cfg, p, w);
      UpdatePermitted(cfg, w);
    } else {
      OtherPermitted(cfg, op, p, w);
    }
  }

  /** Every execution remembers its operation. */
  lemma RunOps(cfg: Config, op: string, p: Params, w: World)
    ensures forall e | e in RunAnswer(cfg, op, p, w).effects && e.Execute? :: e.op == op
  {
  }

  /** The effects of a command are none, or those of running its permitted operation. */
  lemma EffectsAreOfRun(cfg: Config, env: Envelope, w: World) returns (op: string, p: Params)
    ensures OutcomeOf(cfg, env, w).effects != [] ==>
      op in cfg.allowedOps && OutcomeOf(cfg, env, w).effects == RunAnswer(cfg, op, p, w).effects
  {
    op, p := "", NO_PARAMS;
    var cmd := w.decodeCommand(env.payload);
    if cmd.Ok? {
      op := cmd.value.operation;
      var decoded := DecodedParams(cmd.value.params, w);
      if decoded.Ok? {
        p := decoded.value;
      }
    }
  }

  lemma OutcomePermitted(cfg: Config, env: Envelope, w: World)
    ensures forall e | e in OutcomeOf(cfg, env, w).effects && e.Execute? :: Permitted(cfg, e)
  {
    var op, p := EffectsAreOfRun(cfg, env, w);
    if OutcomeOf(cfg, env, w).effects != [] {
      RunPermitted(cfg, op, p, w);
    }
  }

  /** Whatever messages arrive, every execution is permitted by the lists. */
  lemma {:induction false} ExecutionsPermitted(cfg: Config, inputs: seq<Input>)
    ensures forall e | e in Serve(cfg, inputs).effects && e.Execute? :: Permitted(cfg, e)
  {
    if inputs != [] {
      var input := inputs[|inputs| - 1];
      ExecutionsPermitted(cfg, inputs[..|inputs| - 1]);
      if Accepted(input.msg) {
        OutcomePermitted(cfg, input.msg.env, input.w);
      }
    }
  }

  /** For a non-empty list of operations, exec runs no command that is not announced. */
  lemma ExecutedIsAnnounced(cfg: Config, inputs: seq<Input>, order: seq<string>, e: Effect)
    requires cfg.allowedOps != []
    requires e in Serve(cfg, inputs).effects && e.Execute? && e.op == "exec"
    ensures e.command in Announcement(cfg.allowedOps, cfg.allowedCommands, order).execCommands
  {
    ExecutionsPermitted(cfg, inputs);
  }

  /** And a command runs when asked for exactly if it is announced. */
  lemma AnnouncedCommandRuns(cfg: Config, input: Input, p: Params, raw: string)
    requires cfg.allowedOps != [] && Accepted(input.msg)
    requires input.w.decodeCommand(input.msg.env.payload) == Ok(CommandPayload("exec", raw))
    requires DecodedParams(raw, input.w) == Ok(p)
    ensures p.command in Announcement(cfg.allowedOps, cfg.allowedCommands, input.w.catalogOrder).execCommands
       <==> Serve(cfg, [input]).effects == [Execute("exec", p.command, p.args, input.w.firstExec.error.None?)]
  {
    assert [input][..0] == [];
    ExecRunsAnnouncedCommands(cfg, p, input.w);
  }

  /** An apt-get run, under whatever path, that upgrades. */
  predicate IsUpgrade(e: Effect) {
    e.Execute? && Text.BaseName(e.command) == "apt-get" && "upgrade" in e.args
  }

  /** Of the fixed argument lists only one upgrades. */
  lemma FixedArgs(windows: bool)
    ensures "upgrade" in UPGRADE_ARGS && "upgrade" !in UPDATE_ARGS
    ensures "upgrade" !in RebootCommand(windows).1 && "upgrade" !in ShutdownCommand(windows).1
  {
    assert UPGRADE_ARGS[5] == "upgrade";
    assert |UPDATE_ARGS[0]| == |UPDATE_ARGS[1]| == |UPDATE_ARGS[3]| == 2;
    assert UPDATE_ARGS[2][0] == UPDATE_ARGS[4][0] == 'D';
    assert |UPDATE_ARGS[5]| == 6;
  }

  const GOOD_UPDATE: Effect := Execute("system.update", "apt-get", UPDATE_ARGS, true)

  /** The second step of system.update is one. */
  lemma SystemUpdateUpgrades(ok: bool)
    ensures IsUpgrade(Execute("system.update", "apt-get", UPGRADE_ARGS, ok))
  {
    FixedArgs(true);
    Text.BaseNameOf("", "apt-get");
  }

  /** Every apt upgrade that is not an exec directly follows a successful apt update. */
  predicate UpgradesFollowUpdates(effects: seq<Effect>) {
    forall i | 0 <= i < |effects| && IsUpgrade(effects[i]) && effects[i].op != "exec" ::
      0 < i && effects[i - 1] == GOOD_UPDATE
  }

  lemma UpgradesFollowUpdatesConcat(a: seq<Effect>, b: seq<Effect>)
    requires UpgradesFollowUpdates(a) && UpgradesFollowUpdates(b)
    ensures UpgradesFollowUpdates(a + b)
  {
    forall i | 0 <= i < |a + b| && IsUpgrade((a + b)[i]) && (a + b)[i].op != "exec"
      ensures 0 < i && (a + b)[i - 1] == GOOD_UPDATE
    {
      if |a| <= i {
        assert (a + b)[i] == b[i - |a|];
        assert (a + b)[i - 1] == b[i - |a| - 1];
      }
    }
  }

  /** What can upgrade is an exec or the second step of system.update. */
  lemma PermittedUpgrade(cfg: Config, e: Effect)
    requires e.Execute? && Permitted(cfg, e) && IsUpgrade(e)
    ensures e.op == "exec" || e.op == "system.update"
  {
    FixedArgs(true);
    FixedArgs(false);
  }

  lemma UpdateBeforeUpgrade(update: Effect, upgrade: Effect)
    requires !IsUpgrade(update)
    ensures UpgradesFollowUpdates([ReadOsRelease])
    ensures UpgradesFollowUpdates([ReadOsRelease, update])
    ensures update == GOOD_UPDATE ==> UpgradesFollowUpdates([ReadOsRelease, update, upgrade])
  {
  }

  lemma UpdateUpgrades(w: World)
    ensures UpgradesFollowUpdates(UpdateAnswer(w).effects)
  {
    var update := Execute("system.update", "apt-get", UPDATE_ARGS, w.firstExec.error.None?);
    FixedArgs(w.windows);
    UpdateBeforeUpgrade(update, Execute("system.update", "apt-get", UPGRADE_ARGS, w.secondExec.error.None?));
  }

  lemma RunUpgrades(cfg: Config, op: string, p: Params, w: World)
    requires op in cfg.allowedOps
    ensures UpgradesFollowUpdates(RunAnswer(cfg, op, p, w).effects)
  {
    if op == "system.update" {
      UpdateUpgrades(w);
      RunIsUpdate(cfg, p, w);
    } else {
      RunPermitted(cfg, op, p, w);
      RunOps(cfg, op, p, w);
      NoneUpgrades(cfg, op, RunAnswer(cfg, op, p, w).effects);
    }
  }

  lemma NoneUpgrades(cfg: Config, op: string, effects: seq<Effect>)
    requires op != "system.update"
    requires forall e | e in effects && e.Execute? :: Permitted(cfg, e) && e.op == op
    ensures UpgradesFollowUpdates(effects)
  {
    forall i | 0 <= i < |effects| && IsUpgrade(effects[i]) ensures effects[i].op == "exec" {
      PermittedUpgrade(cfg, effects[i]);
    }
  }

  lemma OutcomeUpgrades(cfg: Config, env: Envelope, w: World)
    ensures UpgradesFollowUpdates(OutcomeOf(cfg, env, w).effects)
  {
    var op, p := EffectsAreOfRun(cfg, env, w);
    if OutcomeOf(cfg, env, w).effects != [] {
      RunUpgrades(cfg, op, p, w);
    }
  }

  /** Within each command, and so over any run, an apt upgrade directly follows the
      successful apt update of the same command. */
  lemma {:induction false} UpgradeAfterUpdate(cfg: Config, inputs: seq<Input>)
    ensures UpgradesFollowUpdates(Serve(cfg, inputs).effects)
  {
    if inputs != [] {
      var front, input := inputs[..|inputs| - 1], inputs[|inputs| - 1];
      UpgradeAfterUpdate(cfg, front);
      if Accepted(input.msg) {
        OutcomeUpgrades(cfg, input.msg.env, input.w);
      }
      UpgradesFollowUpdatesConcat(Serve(cfg, front).effects, EffectsOf(cfg, input));
    }
  }

  /** The lists let exec run an apt-get binary. */
  predicate ExecMayRunAptGet(cfg: Config) {
    "exec" in cfg.allowedOps && exists c | c in cfg.allowedCommands :: Text.BaseName(c) == "apt-get"
  }

  /** Judged by command line alone, the same holds of every apt upgrade unless the lists let
      exec run an apt-get binary. */
  lemma UpgradeAfterUpdateByCommandLine(cfg: Config, inputs: seq<Input>, i: nat)
    requires !ExecMayRunAptGet(cfg)
    requires i < |Serve(cfg, inputs).effects| && IsUpgrade(Serve(cfg, inputs).effects[i])
    ensures 0 < i && Serve(cfg, inputs).effects[i - 1] == GOOD_UPDATE
  {
    UpgradeAfterUpdate(cfg, inputs);
    ExecutionsPermitted(cfg, inputs);
    var e := Serve(cfg, inputs).effects[i];
    assert e in Serve(cfg, inputs).effects;
    assert Permitted(cfg, e);
  }

  /** Some apt upgrade of the run has no successful apt update right before it. */
  predicate UpgradesAlone(effects: seq<Effect>) {
    exists i | 0 <= i < |effects| :: IsUpgrade(effects[i]) && (i == 0 || effects[i - 1] != GOOD_UPDATE)
  }

  /** If they do let it, a single message upgrades with no update before it. */
  lemma ExecCanUpgradeAlone(cfg: Config, command: string) returns (input: Input)
    requires "exec" in cfg.allowedOps && command in cfg.allowedCommands && Text.BaseName(command) == "apt-get"
    ensures Serve(cfg, [input]).effects == [Execute("exec", command, ["upgrade"], true)]
    ensures UpgradesAlone(Serve(cfg, [input]).effects)
  {
    var p := Params("", command, ["upgrade"], 0);
    input := Asking("exec", p, Err(""));
    SampleOutcome(cfg, "exec", p, Err(""));
    ServeOne(cfg, input);
    ListedExec(cfg, p, input.w);
    UpgradeAlone(Execute("exec", command, p.args, true));
  }

  lemma UpgradeAlone(e: Effect)
    requires e.Execute? && Text.BaseName(e.command) == "apt-get" && e.args == ["upgrade"]
    ensures UpgradesAlone([e])
  {
    assert e.args[0] == "upgrade";
    assert IsUpgrade([e][0]);
  }

  lemma ListedExec(cfg: Config, p: Params, w: World)
    requires p.command in cfg.allowedCommands
    ensures RunAnswer(cfg, "exec", p, w) == Executed("exec", p.command, p.args, w.firstExec)
  {
  }

  lemma NeverUpgradesAlone(cfg: Config, inputs: seq<Input>)
    requires !ExecMayRunAptGet(cfg)
    ensures !UpgradesAlone(Serve(cfg, inputs).effects)
  {
    var effects := Serve(cfg, inputs).effects;
    forall i | 0 <= i < |effects| && IsUpgrade(effects[i]) ensures 0 < i && effects[i - 1] == GOOD_UPDATE {
      UpgradeAfterUpdateByCommandLine(cfg, inputs, i);
    }
  }

  /** So the condition is exact. */
  lemma UpgradesAloneIff(cfg: Config)
    ensures (exists inputs: seq<Input> :: UpgradesAlone(Serve(cfg, inputs).effects)) <==> ExecMayRunAptGet(cfg)
  {
    if ExecMayRunAptGet(cfg) {
      var command :| command in cfg.allowedCommands && Text.BaseName(command) == "apt-get";
      var input := ExecCanUpgradeAlone(cfg, command);
    } else {
      forall inputs: seq<Input> ensures !UpgradesAlone(Serve(cfg, inputs).effects) {
        NeverUpgradesAlone(cfg, inputs);
      }
    }
  }
}
