/** Dispatch and run: from a command envelope to its effects and its result. */
module Dispatcher {
  import opened Basics
  import opened Capabilities
  import opened Durations
  import Handoff = IntervalHandoff
  import OsRelease
  import Protocol
  import Rounding
  import Text

  // ---- what goes in and out ----

  datatype Params = Params(name: string, command: string, args: seq<string>, intervalS: int64)

  const NO_PARAMS := Params("", "", [], 0)

  /** A decoded command payload; the parameters are still raw JSON. */
  datatype CommandPayload = CommandPayload(operation: string, params: string)

  /** A float64 as JSON sees it: NaN and the infinities cannot be expressed. */
  datatype Float = Finite(value: real) | NotFinite

  /** The values behind a module function's result: all that is text, integers and booleans,
      and the floating-point values. */
  datatype ModuleAnswer = ModuleAnswer(text: string, numbers: seq<Float>)

  datatype Output =
    | Module(text: string, numbers: seq<Float>)     // numbers: the float64 fields
    | Streams(stdout: string, stderr: string)
    | Update(distro: string, update: Output, upgrade: Output)
    | Intervals(requested: int64, applied: int)
    | Announced(payload: CapabilitiesPayload)

  datatype RunError =
    | UnknownOperation(op: string)
    | CommandNotAllowed(command: string)
    | BadInterval
    | OsUnreadable
    | NotDebian
    | UpdateFailed(error: string)
    | ModuleError(error: string)

  datatype Reason =
    | NoReason
    | PayloadUndecodable(error: string)
    | NotPermitted(op: string)
    | ParamsUndecodable(error: string)
    | RunFailed(cause: RunError)

  datatype Payload =
    | Raw(json: string)
    | ResultOf(commandId: string, status: string, reason: Reason, output: Option<Output>)

  type Envelope = Protocol.Envelope<Payload>

  /** Marshalling a result fails only for a float64 that JSON cannot express. */
  predicate Marshals(output: Option<Output>) {
    output.Some? && output.value.Module? ==> forall x | x in output.value.numbers :: x.Finite?
  }

  // ---- effects ----

  datatype SystemFn = GetInfo | GetMetrics | GetCPU | GetMemory | GetDisk | GetNetwork

  datatype ServiceFn = List | Get | StartUnit | StopUnit | Restart | Reload | Enable | Disable

  /** One step of a module, the executor or the publisher; an execution remembers the
      operation that asked for it and whether it succeeded. */
  datatype Effect =
    | SystemCall(sys: SystemFn)
    | ServiceCall(svc: ServiceFn, name: string)
    | ReadOsRelease
    | Execute(op: string, command: string, args: seq<string>, ok: bool)
    | Announce
    | SetInterval(d: Duration)

  datatype ExecAnswer = ExecAnswer(stdout: string, stderr: string, error: Option<string>)

  /** What the surroundings answer while one command is handled. */
  datatype World = World(
    decodeCommand: Option<Payload> -> Result<CommandPayload, string>,
    decodeParams: string -> Result<Params, string>,
    windows: bool,
    moduleAnswer: Result<ModuleAnswer, string>,
    osRelease: Option<string>,
    fold: char -> char,
    firstExec: ExecAnswer,
    secondExec: ExecAnswer,
    round: real -> real,
    catalogOrder: seq<string>,
    stamp: Protocol.Stamp,
    brokerOk: bool)

  /** The configured lists, given to publisher and dispatcher alike. */
  datatype Config = Config(agentUuid: string, allowedOps: seq<string>, allowedCommands: seq<string>)

  datatype Answer = Answer(effects: seq<Effect>, result: Result<Output, RunError>)

  // ---- the operations ----

  const UPDATE_ARGS: seq<string> := [
    "-y", "-o", "Dpkg::Options::=--force-confdef", "-o", "Dpkg::Options::=--force-confold", "update"]

  const UPGRADE_ARGS: seq<string> := [
    "-y", "-o", "Dpkg::Options::=--force-confdef", "-o", "Dpkg::Options::=--force-confold", "upgrade"]

  function RebootCommand(windows: bool): (string, seq<string>) {
    if windows then ("shutdown", ["/r", "/t", "0"]) else ("systemctl", ["reboot"])
  }

  function ShutdownCommand(windows: bool): (string, seq<string>) {
    if windows then ("shutdown", ["/s", "/t", "0"]) else ("systemctl", ["poweroff"])
  }

  const SYSTEM_OPS: map<string, SystemFn> := map[
    "system.info" := GetInfo, "system.metrics" := GetMetrics, "system.cpu" := GetCPU,
    "system.memory" := GetMemory, "system.disk" := GetDisk, "system.network" := GetNetwork]

  const SERVICE_OPS: map<string, ServiceFn> := map[
    "services.list" := List, "services.get" := Get, "services.start" := StartUnit, "services.stop" := StopUnit,
    "services.restart" := Restart, "services.reload" := Reload, "services.enable" := Enable,
    "services.disable" := Disable]

  /** The functions whose result type has float64 fields. SystemInfo, NetworkEntry, and
      ServiceInfo and ActionResult of the services have none. */
  predicate ReturnsFloats(e: Effect) {
    e.SystemCall? && e.sys in {GetMetrics, GetCPU, GetMemory, GetDisk}
  }

  /** The result of the module function called by e. */
  function FromModule(e: Effect, answer: Result<ModuleAnswer, string>): Result<Output, RunError> {
    match answer
    case Ok(a) => Ok(Module(a.text, if ReturnsFloats(e) then a.numbers else []))
    case Err(error) => Err(ModuleError(error))
  }

  function FromExec(answer: ExecAnswer): Result<Output, RunError> {
    if answer.error.Some? then Err(ModuleError(answer.error.value)) else Ok(Streams(answer.stdout, answer.stderr))
  }

  /** One execution and its result. */
  function Executed(op: string, command: string, args: seq<string>, answer: ExecAnswer): Answer {
    Answer([Execute(op, command, args, answer.error.None?)], FromExec(answer))
  }

  /** system.update: update, and upgrade only after a successful update. */
  function UpdateAnswer(w: World): Answer {
    if w.osRelease.None? then Answer([ReadOsRelease], Err(OsUnreadable))
    else
      var distro := OsRelease.Distro(w.fold, w.osRelease.value);
      if distro == "" then Answer([ReadOsRelease], Err(NotDebian))
      else
        var update := Execute("system.update", "apt-get", UPDATE_ARGS, w.firstExec.error.None?);
        if w.firstExec.error.Some? then Answer([ReadOsRelease, update], Err(UpdateFailed(w.firstExec.error.value)))
        else
          var upgrade := Execute("system.update", "apt-get", UPGRADE_ARGS, w.secondExec.error.None?);
          Answer([ReadOsRelease, update, upgrade],
            match w.secondExec.error
            case Some(e) => Err(ModuleError(e))
            case None =>
              Ok(Update(distro, Streams(w.firstExec.stdout, w.firstExec.stderr),
                        Streams(w.secondExec.stdout, w.secondExec.stderr))))
  }

  function IntervalAnswer(n: int64, w: World): Answer {
    if n <= 0 then Answer([], Err(BadInterval))
    else Answer([SetInterval(FromSeconds(n))], Ok(Intervals(n, Handoff.ReportedSeconds(w.round, n))))
  }

  /** Operations that are one call of the system module or of the service manager. */
  function ModuleEffect(op: string, name: string): Option<Effect> {
    if op in SYSTEM_OPS then Some(SystemCall(SYSTEM_OPS[op]))
    else if op in SERVICE_OPS then Some(ServiceCall(SERVICE_OPS[op], if op == "services.list" then "" else name))
    else None
  }

  /** What running an operation does and answers, by kind of operation. */
  function RunAnswer(cfg: Config, op: string, p: Params, w: World): Answer {
    var call := ModuleEffect(op, p.name);
    if call.Some? then Answer([call.value], FromModule(call.value, w.moduleAnswer))
    else if op == "vm.reboot" then
      Executed(op, RebootCommand(w.windows).0, RebootCommand(w.windows).1, w.firstExec)
    else if op == "vm.shutdown" then
      Executed(op, ShutdownCommand(w.windows).0, ShutdownCommand(w.windows).1, w.firstExec)
    else if op == "system.update" then UpdateAnswer(w)
    else if op == "agent.allowed_operations" then
      Answer([Announce], Ok(Announced(Announcement(cfg.allowedOps, cfg.allowedCommands, w.catalogOrder))))
    else if op == "telemetry.set_interval" then IntervalAnswer(p.intervalS, w)
    else if op == "exec" then
      if p.command in cfg.allowedCommands then Executed(op, p.command, p.args, w.firstExec)
      else Answer([], Err(CommandNotAllowed(p.command)))
    else Answer([], Err(UnknownOperation(op)))
  }

  // ---- the whole dispatch ----

  /** emptyParams: the spellings of "no parameters". */
  predicate EmptyParams(raw: string) {
    Text.TrimSpace(raw) in ["null", "[]", "{}", ""]
  }

  datatype Outcome = Outcome(effects: seq<Effect>, status: string, reason: Reason, output: Option<Output>)

  function Rejected(reason: Reason): Outcome {
    Outcome([], Protocol.REJECTED, reason, None)
  }

  function DecodedParams(raw: string, w: World): Result<Params, string> {
    if raw != "" && !EmptyParams(raw) then w.decodeParams(raw) else Ok(NO_PARAMS)
  }

  function OutcomeOf(cfg: Config, env: Envelope, w: World): Outcome {
    match w.decodeCommand(env.payload)
    case Err(e) => Rejected(PayloadUndecodable(e))
    case Ok(cmd) =>
      if cmd.operation !in cfg.allowedOps then Rejected(NotPermitted(cmd.operation))
      else
        match DecodedParams(cmd.params, w)
        case Err(e) => Rejected(ParamsUndecodable(e))
        case Ok(p) =>
          var answer := RunAnswer(cfg, cmd.operation, p, w);
          match answer.result
          case Err(e) => Outcome(answer.effects, Protocol.FAILED, RunFailed(e), None)
          case Ok(output) => Outcome(answer.effects, Protocol.COMPLETED, NoReason, Some(output))
  }

  /** ResultFor: the envelope that answers env; the zero envelope if it cannot be marshalled. */
  function ResultFor(cfg: Config, env: Envelope, o: Outcome, stamp: Protocol.Stamp): Envelope {
    match Protocol.New(cfg.agentUuid, Protocol.RESULT, ResultOf(env.id, o.status, o.reason, o.output),
                       Marshals(o.output), stamp)
    case None => Protocol.ZeroEnvelope()
    case Some(result) => result
  }

  class Dispatcher {
    const cfg: Config
    const allowedOps: map<string, bool>
    var history: seq<Effect>

    ghost predicate Valid() {
      forall op :: (op in allowedOps && allowedOps[op]) <==> op in cfg.allowedOps
    }

    constructor (cfg: Config)
      ensures Valid() && this.cfg == cfg && history == []
    {
      var ops: map<string, bool> := map[];
      for i := 0 to |cfg.allowedOps|
        invariant forall op :: (op in ops && ops[op]) <==> op in cfg.allowedOps[..i]
      {
        assert cfg.allowedOps[..i + 1] == cfg.allowedOps[..i] + [cfg.allowedOps[i]];
        ops := ops[cfg.allowedOps[i] := true];
      }
      assert cfg.allowedOps[..|cfg.allowedOps|] == cfg.allowedOps;
      this.cfg := cfg;
      allowedOps := ops;
      history := [];
    }

    method Perform(e: Effect)
      modifies this
      ensures history == old(history) + [e]
    {
      history := history + [e];
    }

    method ExecuteCommand(op: string, command: string, args: seq<string>, answer: ExecAnswer)
      returns (r: Result<Output, RunError>)
      modifies this
      ensures history == old(history) + Executed(op, command, args, answer).effects
      ensures r == Executed(op, command, args, answer).result
    {
      Perform(Execute(op, command, args, answer.error.None?));
      return FromExec(answer);
    }

    method UpdateSystem(w: World) returns (r: Result<Output, RunError>)
      modifies this
      ensures history == old(history) + UpdateAnswer(w).effects
      ensures r == UpdateAnswer(w).result
    {
      Perform(ReadOsRelease);
      var distro := OsRelease.DetectDebianDistro(w.fold, w.osRelease);
      if distro.Err? {
        return Err(OsUnreadable);
      }
      if distro.value == "" {
        return Err(NotDebian);
      }
      var _ := ExecuteCommand("system.update", "apt-get", UPDATE_ARGS, w.firstExec);
      if w.firstExec.error.Some? {
        return Err(UpdateFailed(w.firstExec.error.value));
      }
      var _ := ExecuteCommand("system.update", "apt-get", UPGRADE_ARGS, w.secondExec);
      if w.secondExec.error.Some? {
        return Err(ModuleError(w.secondExec.error.value));
      }
      return Ok(Update(distro.value, Streams(w.firstExec.stdout, w.firstExec.stderr),
                       Streams(w.secondExec.stdout, w.secondExec.stderr)));
    }

    method Reboot(op: string, w: World) returns (r: Result<Output, RunError>)
      modifies this
      ensures var cmd := RebootCommand(w.windows);
        && history == old(history) + Executed(op, cmd.0, cmd.1, w.firstExec).effects
        && r == Executed(op, cmd.0, cmd.1, w.firstExec).result
    {
      if w.windows {
        r := ExecuteCommand(op, "shutdown", ["/r", "/t", "0"], w.firstExec);
      } else {
        r := ExecuteCommand(op, "systemctl", ["reboot"], w.firstExec);
      }
    }

    method Shutdown(op: string, w: World) returns (r: Result<Output, RunError>)
      modifies this
      ensures var cmd := ShutdownCommand(w.windows);
        && history == old(history) + Executed(op, cmd.0, cmd.1, w.firstExec).effects
        && r == Executed(op, cmd.0, cmd.1, w.firstExec).result
    {
      if w.windows {
        r := ExecuteCommand(op, "shutdown", ["/s", "/t", "0"], w.firstExec);
      } else {
        r := ExecuteCommand(op, "systemctl", ["poweroff"], w.firstExec);
      }
    }

    /** The cases of run that are a single module call. */
    method CallModule(op: string, name: string) returns (called: bool)
      modifies this
      ensures called == ModuleEffect(op, name).Some?
      ensures history == old(history) + if called then [ModuleEffect(op, name).value] else []
    {
      called := true;
      match op {
        case "system.info" => Perform(SystemCall(GetInfo));
        case "system.metrics" => Perform(SystemCall(GetMetrics));
        case "system.cpu" => Perform(SystemCall(GetCPU));
        case "system.memory" => Perform(SystemCall(GetMemory));
        case "system.disk" => Perform(SystemCall(GetDisk));
        case "system.network" => Perform(SystemCall(GetNetwork));
        case "services.list" => Perform(ServiceCall(List, ""));
        case "services.get" => Perform(ServiceCall(Get, name));
        case "services.start" => Perform(ServiceCall(StartUnit, name));
        case "services.stop" => Perform(ServiceCall(StopUnit, name));
        case "services.restart" => Perform(ServiceCall(Restart, name));
        case "services.reload" => Perform(ServiceCall(Reload, name));
        case "services.enable" => Perform(ServiceCall(Enable, name));
        case "services.disable" => Perform(ServiceCall(Disable, name));
        case _ => called := false;
      }
    }

    method Run(op: string, p: Params, w: World) returns (r: Result<Output, RunError>)
      modifies this
      ensures history == old(history) + RunAnswer(cfg, op, p, w).effects
      ensures r == RunAnswer(cfg, op, p, w).result
    {
      var called := CallModule(op, p.name);
      if called {
        return FromModule(ModuleEffect(op, p.name).value, w.moduleAnswer);
      }
      match op {
        case "vm.reboot" => r := Reboot(op, w);
        case "vm.shutdown" => r := Shutdown(op, w);
        case "system.update" => r := UpdateSystem(w);
        case "agent.allowed_operations" =>
          Perform(Announce);
          var payload := BuildCapabilities(cfg.allowedOps, cfg.allowedCommands, w.catalogOrder);
          r := Ok(Announced(payload));
        case "telemetry.set_interval" =>
          if p.intervalS <= 0 {
            return Err(BadInterval);
          }
          Perform(SetInterval(FromSeconds(p.intervalS)));
          r := Ok(Intervals(p.intervalS, Handoff.ReportedSeconds(w.round, p.intervalS)));
        case "exec" =>
          if p.command !in cfg.allowedCommands {
            return Err(CommandNotAllowed(p.command));
          }
          r := ExecuteCommand(op, p.command, p.args, w.firstExec);
        case _ => r := Err(UnknownOperation(op));
      }
    }

    method Dispatch(env: Envelope, w: World) returns (result: Envelope)
      requires Valid()
      modifies this
      ensures history == old(history) + OutcomeOf(cfg, env, w).effects
      ensures result == ResultFor(cfg, env, OutcomeOf(cfg, env, w), w.stamp)
    {
      var cmd := w.decodeCommand(env.payload);
      if cmd.Err? {
        return ResultFor(cfg, env, Rejected(PayloadUndecodable(cmd.error)), w.stamp);
      }
      var op := cmd.value.operation;
      if !(op in allowedOps && allowedOps[op]) {
        return ResultFor(cfg, env, Rejected(NotPermitted(op)), w.stamp);
      }
      var p := NO_PARAMS;
      if |cmd.value.params| > 0 && !EmptyParams(cmd.value.params) {
        var decoded := w.decodeParams(cmd.value.params);
        if decoded.Err? {
          return ResultFor(cfg, env, Rejected(ParamsUndecodable(decoded.error)), w.stamp);
        }
        p := decoded.value;
      }
      var output := Run(op, p, w);
      if output.Err? {
        return ResultFor(cfg, env, Outcome([], Protocol.FAILED, RunFailed(output.error), None), w.stamp);
      }
      return ResultFor(cfg, env, Outcome([], Protocol.COMPLETED, NoReason, Some(output.value)), w.stamp);
    }
  }

  // ---- each operation by name ----

  /** The result of an execution: its streams, or its error. */
  predicate FromStreams(r: Result<Output, RunError>, answer: ExecAnswer) {
    match answer.error
    case None => r == Ok(Streams(answer.stdout, answer.stderr))
    case Some(e) => r == Err(ModuleError(e))
  }

  lemma SystemOpsAre(cfg: Config, p: Params, w: World)
    ensures RunAnswer(cfg, "system.info", p, w).effects == [SystemCall(GetInfo)]
    ensures RunAnswer(cfg, "system.metrics", p, w).effects == [SystemCall(GetMetrics)]
    ensures RunAnswer(cfg, "system.cpu", p, w).effects == [SystemCall(GetCPU)]
    ensures RunAnswer(cfg, "system.memory", p, w).effects == [SystemCall(GetMemory)]
    ensures RunAnswer(cfg, "system.disk", p, w).effects == [SystemCall(GetDisk)]
    ensures RunAnswer(cfg, "system.network", p, w).effects == [SystemCall(GetNetwork)]
  {
  }

  lemma ServiceQueriesAre(cfg: Config, p: Params, w: World)
    ensures RunAnswer(cfg, "services.list", p, w).effects == [ServiceCall(List, "")]
    ensures RunAnswer(cfg, "services.get", p, w).effects == [ServiceCall(Get, p.name)]
  {
  }

  lemma ServiceActionsAre(cfg: Config, p: Params, w: World)
    ensures RunAnswer(cfg, "services.start", p, w).effects == [ServiceCall(StartUnit, p.name)]
    ensures RunAnswer(cfg, "services.stop", p, w).effects == [ServiceCall(StopUnit, p.name)]
    ensures RunAnswer(cfg, "services.restart", p, w).effects == [ServiceCall(Restart, p.name)]
  {
  }

  lemma ServiceSettingsAre(cfg: Config, p: Params, w: World)
    ensures RunAnswer(cfg, "services.reload", p, w).effects == [ServiceCall(Reload, p.name)]
    ensures RunAnswer(cfg, "services.enable", p, w).effects == [ServiceCall(Enable, p.name)]
    ensures RunAnswer(cfg, "services.disable", p, w).effects == [ServiceCall(Disable, p.name)]
  {
  }

  /** A module operation answers what its module does, floats only where its type has some. */
  lemma ModuleOpResult(cfg: Config, op: string, p: Params, w: World)
    requires op in ["system.info", "system.metrics", "system.cpu", "system.memory", "system.disk", "system.network",
                    "services.list", "services.get", "services.start", "services.stop", "services.restart",
                    "services.reload", "services.enable", "services.disable"]
    ensures RunAnswer(cfg, op, p, w).result
         == match w.moduleAnswer
            case Err(e) => Err(ModuleError(e))
            case Ok(a) =>
              Ok(Module(a.text,
                if op in ["system.metrics", "system.cpu", "system.memory", "system.disk"] then a.numbers else []))
  {
  }

  lemma RebootIs(cfg: Config, p: Params, w: World)
    ensures RunAnswer(cfg, "vm.reboot", p, w).effects
         == if w.windows then [Execute("vm.reboot", "shutdown", ["/r", "/t", "0"], w.firstExec.error.None?)]
            else [Execute("vm.reboot", "systemctl", ["reboot"], w.firstExec.error.None?)]
    ensures FromStreams(RunAnswer(cfg, "vm.reboot", p, w).result, w.firstExec)
  {
  }

  lemma ShutdownIs(cfg: Config, p: Params, w: World)
    ensures RunAnswer(cfg, "vm.shutdown", p, w).effects
         == if w.windows then [Execute("vm.shutdown", "shutdown", ["/s", "/t", "0"], w.firstExec.error.None?)]
            else [Execute("vm.shutdown", "systemctl", ["poweroff"], w.firstExec.error.None?)]
    ensures FromStreams(RunAnswer(cfg, "vm.shutdown", p, w).result, w.firstExec)
  {
  }

  /** The command line of apt-get with one of its two actions. */
  function AptGet(action: string, ok: bool): Effect {
    Execute("system.update", "apt-get",
      ["-y", "-o", "Dpkg::Options::=--force-confdef", "-o", "Dpkg::Options::=--force-confold", action], ok)
  }

  /** How far system.update gets, and what it answers. */
  lemma UpdateIs(cfg: Config, p: Params, w: World)
    ensures var answer := RunAnswer(cfg, "system.update", p, w);
      var distro := if w.osRelease.None? then "" else OsRelease.Distro(w.fold, w.osRelease.value);
      if distro == "" then
        && answer.effects == [ReadOsRelease]
        && answer.result == Err(if w.osRelease.None? then OsUnreadable else NotDebian)
      else if w.firstExec.error.Some? then
        && answer.effects == [ReadOsRelease, AptGet("update", false)]
        && answer.result == Err(UpdateFailed(w.firstExec.error.value))
      else
        && answer.effects == [ReadOsRelease, AptGet("update", true), AptGet("upgrade", w.secondExec.error.None?)]
        && (w.secondExec.error.Some? ==> answer.result == Err(ModuleError(w.secondExec.error.value)))
        && (w.secondExec.error.None? ==>
              answer.result == Ok(Update(distro, Streams(w.firstExec.stdout, w.firstExec.stderr),
                                         Streams(w.secondExec.stdout, w.secondExec.stderr))))
  {
    RunIsUpdate(cfg, p, w);
    assert UPDATE_ARGS == AptGet("update", true).args && UPGRADE_ARGS == AptGet("upgrade", true).args;
  }

  lemma RunIsUpdate(cfg: Config, p: Params, w: World)
    ensures RunAnswer(cfg, "system.update", p, w) == UpdateAnswer(w)
  {
  }

  lemma AllowedOperationsIs(cfg: Config, p: Params, w: World)
    ensures RunAnswer(cfg, "agent.allowed_operations", p, w)
         == Answer([Announce], Ok(Announced(Announcement(cfg.allowedOps, cfg.allowedCommands, w.catalogOrder))))
  {
  }

  /** A positive number of seconds is set and reported as it is, as long as it fits a Duration. */
  lemma SetIntervalIs(cfg: Config, p: Params, w: World)
    requires Rounding.IsRounding(w.round)
    ensures var answer := RunAnswer(cfg, "telemetry.set_interval", p, w);
      if p.intervalS <= 0 then answer == Answer([], Err(BadInterval))
      else
        && |answer.effects| == 1 && answer.effects[0].SetInterval?
        && answer.result.Ok? && answer.result.value.Intervals? && answer.result.value.requested == p.intervalS
        && (answer.result.value.applied == p.intervalS <==> p.intervalS <= 9_223_372_036)
        && (p.intervalS <= 9_223_372_036 ==> answer.effects[0].d == p.intervalS * 1_000_000_000)
  {
    if 0 < p.intervalS {
      Handoff.ReportedIffInRange(w.round, p.intervalS);
      FromSecondsIs(p.intervalS);
    }
  }

  lemma ExecIs(cfg: Config, p: Params, w: World)
    ensures var answer := RunAnswer(cfg, "exec", p, w);
      if p.command in cfg.allowedCommands then
        && answer.effects == [Execute("exec", p.command, p.args, w.firstExec.error.None?)]
        && FromStreams(answer.result, w.firstExec)
      else answer == Answer([], Err(CommandNotAllowed(p.command)))
  {
  }

  lemma UnknownIs(cfg: Config, op: string, p: Params, w: World)
    requires op !in CATALOG
    ensures RunAnswer(cfg, op, p, w) == Answer([], Err(UnknownOperation(op)))
  {
  }

  /** The schema of op declares a parameter of that name. */
  predicate Declares(op: string, name: string)
    requires op in CATALOG
  {
    exists i | 0 <= i < |CATALOG[op].params| :: CATALOG[op].params[i].name == name
  }

  /** The announced parameters are all an operation looks at: parameters that agree on the
      declared names have the same effects and the same answer. */
  lemma DeclaredParamsDecide(cfg: Config, op: string, p: Params, q: Params, w: World)
    requires op in CATALOG
    requires Declares(op, "name") ==> p.name == q.name
    requires Declares(op, "command") ==> p.command == q.command
    requires Declares(op, "args") ==> p.args == q.args
    requires Declares(op, "interval_s") ==> p.intervalS == q.intervalS
    ensures RunAnswer(cfg, op, p, w) == RunAnswer(cfg, op, q, w)
  {
    CatalogParams(op);
    if op in SERVICE_OPS && op != "services.list" {
      assert CATALOG[op].params[0].name == "name";
    } else if op == "telemetry.set_interval" {
      assert CATALOG[op].params[0].name == "interval_s";
    } else if op == "exec" {
      assert CATALOG[op].params[0].name == "command" && CATALOG[op].params[1].name == "args";
    }
  }

  // ---- announced equals dispatchable ----

  /** The allow gate lets op through, and run has a case for it. */
  predicate Dispatchable(cfg: Config, op: string, p: Params, w: World) {
    op in cfg.allowedOps && RunAnswer(cfg, op, p, w).result != Err(UnknownOperation(op))
  }

  /** run reaches its default case exactly for the names outside the catalog. */
  lemma CatalogIsTheSwitch(cfg: Config, op: string, p: Params, w: World)
    ensures RunAnswer(cfg, op, p, w).result != Err(UnknownOperation(op)) <==> op in CATALOG
  {
  }

  /** For a non-empty list of operations, with repeats and unknown names: an operation is
      announced exactly when dispatching it passes the gate and reaches a case of run. */
  lemma AnnouncedIffDispatchable(cfg: Config, op: string, p: Params, w: World)
    requires cfg.allowedOps != []
    ensures Announces(Announcement(cfg.allowedOps, cfg.allowedCommands, w.catalogOrder), op)
       <==> Dispatchable(cfg, op, p, w)
  {
    CatalogIsTheSwitch(cfg, op, p, w);
    AnnouncesSupported(cfg.allowedOps, cfg.allowedCommands, w.catalogOrder, op);
  }

  /** For an empty list the two part: the full catalog is announced, with the commands for
      exec, and every command is rejected without any effect. */
  lemma EmptyListFallback(cfg: Config, env: Envelope, w: World, op: string)
    requires cfg.allowedOps == [] && IsCatalogOrder(w.catalogOrder)
    ensures var payload := Announcement(cfg.allowedOps, cfg.allowedCommands, w.catalogOrder);
      && (Announces(payload, op) <==> op in CATALOG)
      && |payload.operations| == |w.catalogOrder|
      && payload.execCommands == cfg.allowedCommands
    ensures OutcomeOf(cfg, env, w).status == Protocol.REJECTED && OutcomeOf(cfg, env, w).effects == []
  {
    FullCatalogOnce(cfg.allowedCommands, w.catalogOrder, op);
    assert "exec" in CATALOG;
  }

  /** The commands exec runs are the announced ones, for a non-empty list of operations. */
  lemma ExecRunsAnnouncedCommands(cfg: Config, p: Params, w: World)
    requires cfg.allowedOps != []
    ensures p.command in Announcement(cfg.allowedOps, cfg.allowedCommands, w.catalogOrder).execCommands
       <==> "exec" in cfg.allowedOps && RunAnswer(cfg, "exec", p, w).effects != []
  {
  }

  // ---- statuses ----

  /** A rejection touches nothing: no module, no executor, no publisher. Rejected are the
      undecodable and the not permitted; all that reached run completes or fails. */
  lemma RejectedUntouched(cfg: Config, env: Envelope, w: World)
    ensures var o := OutcomeOf(cfg, env, w);
      && (o.status == Protocol.REJECTED
          <==> o.reason.PayloadUndecodable? || o.reason.NotPermitted? || o.reason.ParamsUndecodable?)
      && (o.status == Protocol.REJECTED ==> o.effects == [])
      && (o.status == Protocol.FAILED <==> o.reason.RunFailed?)
      && (o.status == Protocol.COMPLETED <==> o.reason.NoReason? && o.output.Some?)
      && (o.status == Protocol.REJECTED || o.status == Protocol.FAILED || o.status == Protocol.COMPLETED)
  {
    assert Protocol.COMPLETED[0] == 'c' && Protocol.FAILED[0] == 'f' && Protocol.REJECTED[0] == 'r';
  }

  /** However the absence of parameters is spelled, and whatever space surrounds it, no
      decoding takes place. */
  lemma EmptySpellings(before: string, core: string, after: string, w: World)
    requires core in ["null", "[]", "{}", ""]
    requires forall c | c in before + after :: Text.IsSpace(c)
    ensures DecodedParams(before + core + after, w) == Ok(NO_PARAMS)
  {
    Text.TrimSpaceOf(before, core, after);
  }

  /** Anything else is decoded. */
  lemma OtherParamsDecoded(raw: string, w: World)
    requires forall before, core, after ::
      core in ["null", "[]", "{}", ""] && (forall c | c in before + after :: Text.IsSpace(c)) ==>
        raw != before + core + after
    ensures DecodedParams(raw, w) == w.decodeParams(raw)
  {
    var before, after := Text.TrimSpaceParts(raw);
    assert raw != before + "" + after || Text.TrimSpace(raw) != "";
  }

  /** A command outside the list of commands fails, it is not rejected; and so does an
      operation that is permitted but unknown. */
  lemma DisallowedExecFails(cfg: Config, env: Envelope, w: World, cmd: CommandPayload, p: Params)
    requires w.decodeCommand(env.payload) == Ok(cmd) && cmd.operation in cfg.allowedOps
    requires DecodedParams(cmd.params, w) == Ok(p)
    requires (cmd.operation == "exec" && p.command !in cfg.allowedCommands) || cmd.operation !in CATALOG
    ensures OutcomeOf(cfg, env, w).status == Protocol.FAILED && OutcomeOf(cfg, env, w).effects == []
  {
    DisallowedRun(cfg, cmd.operation, p, w);
  }

  lemma DisallowedRun(cfg: Config, op: string, p: Params, w: World)
    requires (op == "exec" && p.command !in cfg.allowedCommands) || op !in CATALOG
    ensures RunAnswer(cfg, op, p, w).effects == [] && RunAnswer(cfg, op, p, w).result.Err?
  {
  }
}
