/** The operation catalog and the announcement built from the configured lists. */
module Capabilities {
  import opened Basics
  import Protocol

  datatype OperationParam = OperationParam(name: string, kind: string, required: bool, minValue: Option<int>)

  /** Descriptions are left out. */
  datatype OperationSchema = OperationSchema(operation: string, params: seq<OperationParam>)

  datatype CapabilitiesPayload = CapabilitiesPayload(operations: seq<OperationSchema>, execCommands: seq<string>)

  const SERVICE_NAME: seq<OperationParam> := [OperationParam("name", "string", true, None)]

  /** Every supported operation with its parameters, keyed by its name. */
  const CATALOG: map<string, OperationSchema> := map[
    "agent.allowed_operations" := OperationSchema("agent.allowed_operations", []),
    "services.list" := OperationSchema("services.list", []),
    "services.get" := OperationSchema("services.get", SERVICE_NAME),
    "services.start" := OperationSchema("services.start", SERVICE_NAME),
    "services.stop" := OperationSchema("services.stop", SERVICE_NAME),
    "services.restart" := OperationSchema("services.restart", SERVICE_NAME),
    "services.reload" := OperationSchema("services.reload", SERVICE_NAME),
    "services.enable" := OperationSchema("services.enable", SERVICE_NAME),
    "services.disable" := OperationSchema("services.disable", SERVICE_NAME),
    "system.info" := OperationSchema("system.info", []),
    "system.metrics" := OperationSchema("system.metrics", []),
    "system.cpu" := OperationSchema("system.cpu", []),
    "system.memory" := OperationSchema("system.memory", []),
    "system.disk" := OperationSchema("system.disk", []),
    "system.network" := OperationSchema("system.network", []),
    "system.update" := OperationSchema("system.update", []),
    "telemetry.set_interval" := OperationSchema("telemetry.set_interval",
      [OperationParam("interval_s", "integer", true, Some(1))]),
    "vm.reboot" := OperationSchema("vm.reboot", []),
    "vm.shutdown" := OperationSchema("vm.shutdown", []),
    "exec" := OperationSchema("exec",
      [OperationParam("command", "string", true, None), OperationParam("args", "array", false, None)])
  ]

  /** The catalog's keys in the order in which ranging over the map yields them. */
  ghost predicate IsCatalogOrder(order: seq<string>) {
    && (forall op :: op in order <==> op in CATALOG)
    && (forall i, j | 0 <= i < j < |order| :: order[i] != order[j])
  }

  /** The schemas of the operations that are in the catalog, in order, repeats included. */
  function Schemas(catalog: map<string, OperationSchema>, source: seq<string>): seq<OperationSchema> {
    if source == [] then []
    else
      var op, earlier := source[|source| - 1], Schemas(catalog, source[..|source| - 1]);
      if op in catalog then earlier + [catalog[op]] else earlier
  }

  /** Every schema carries the name it is filed under. */
  ghost predicate SelfNamed(catalog: map<string, OperationSchema>) {
    forall op | op in catalog :: catalog[op].operation == op
  }

  lemma CatalogSelfNamed()
    ensures SelfNamed(CATALOG)
  {
  }

  /** What is announced for the configured lists. */
  function Announcement(allowedOps: seq<string>, allowedCommands: seq<string>, order: seq<string>)
    : CapabilitiesPayload
  {
    var source := if allowedOps == [] then order else allowedOps;
    CapabilitiesPayload(Schemas(CATALOG, source), if "exec" in source then allowedCommands else [])
  }

  /** The loops of sendCapabilities; order is the iteration order of the catalog. */
  method BuildCapabilities(allowedOps: seq<string>, allowedCommands: seq<string>, order: seq<string>)
    returns (payload: CapabilitiesPayload)
    ensures payload == Announcement(allowedOps, allowedCommands, order)
  {
    var source := allowedOps;
    if |source| == 0 {
      for i := 0 to |order|
        invariant source == order[..i]
      {
        source := source + [order[i]];
      }
      assert order[..|order|] == order;
    }
    var schemas: seq<OperationSchema> := [];
    var execAllowed := false;
    for i := 0 to |source|
      invariant schemas == Schemas(CATALOG, source[..i])
      invariant execAllowed == ("exec" in source[..i])
    {
      var op := source[i];
      assert source[..i + 1][..i] == source[..i];
      assert source[..i + 1] == source[..i] + [op];
      if op == "exec" {
        execAllowed := true;
      }
      if op in CATALOG {
        schemas := schemas + [CATALOG[op]];
      }
    }
    assert source[..|source|] == source;
    payload := CapabilitiesPayload(schemas, []);
    if execAllowed {
      payload := payload.(execCommands := allowedCommands);
    }
  }

  /** sendCapabilities: the announcement is returned whether or not it could be published. */
  method SendCapabilities(
    client: Protocol.Client<CapabilitiesPayload>, allowedOps: seq<string>, allowedCommands: seq<string>,
    order: seq<string>, stamp: Protocol.Stamp, brokerOk: bool)
    returns (payload: CapabilitiesPayload)
    modifies client
    ensures payload == Announcement(allowedOps, allowedCommands, order)
    ensures client.attempts
         == old(client.attempts)
            + [Protocol.Attempt(Protocol.EvtSubject(client.agentUuid), Event(client.agentUuid, payload, stamp),
                                brokerOk)]
  {
    payload := BuildCapabilities(allowedOps, allowedCommands, order);
    var env := Protocol.New(client.agentUuid, Protocol.CAPABILITIES, payload, true, stamp);
    if env.None? {
      return;
    }
    var _ := client.Publish(env.value, brokerOk);
  }

  /** The catalog, name by name. */
  lemma CatalogKeys(op: string)
    ensures op in CATALOG <==> op in [
      "agent.allowed_operations", "services.list", "services.get", "services.start", "services.stop",
      "services.restart", "services.reload", "services.enable", "services.disable", "system.info", "system.metrics",
      "system.cpu", "system.memory", "system.disk", "system.network", "system.update", "telemetry.set_interval",
      "vm.reboot", "vm.shutdown", "exec"]
  {
  }

  /** The parameters of each operation: seven take the name of a service, one an interval of
      at least a second, and exec a command and its arguments. */
  lemma CatalogParams(op: string)
    requires op in CATALOG
    ensures CATALOG[op].operation == op
    ensures CATALOG[op].params
         == if op in ["services.get", "services.start", "services.stop", "services.restart", "services.reload",
                      "services.enable", "services.disable"] then [OperationParam("name", "string", true, None)]
            else if op == "telemetry.set_interval" then [OperationParam("interval_s", "integer", true, Some(1))]
            else if op == "exec" then
              [OperationParam("command", "string", true, None), OperationParam("args", "array", false, None)]
            else []
  {
  }

  /** One listed operation: its schema, if it has one. */
  lemma SchemasOfOne(catalog: map<string, OperationSchema>, op: string)
    ensures Schemas(catalog, [op]) == if op in catalog then [catalog[op]] else []
  {
    assert [op][..0] == [];
  }

  /** The schemas come in the order of the list, repeats included. */
  lemma {:induction false} SchemasAppend(catalog: map<string, OperationSchema>, a: seq<string>, b: seq<string>)
    ensures Schemas(catalog, a + b) == Schemas(catalog, a) + Schemas(catalog, b)
  {
    if b == [] {
      assert a + b == a;
    } else {
      assert (a + b)[..|a + b| - 1] == a + b[..|b| - 1];
      SchemasAppend(catalog, a, b[..|b| - 1]);
    }
  }

  /** The commands are announced exactly if exec is among the operations. */
  lemma ExecCommandsAre(allowedOps: seq<string>, allowedCommands: seq<string>, order: seq<string>)
    ensures var payload := Announcement(allowedOps, allowedCommands, order);
      && (allowedOps != [] ==> payload.operations == Schemas(CATALOG, allowedOps))
      && (allowedOps == [] ==> payload.operations == Schemas(CATALOG, order))
      && (payload.execCommands
          == if "exec" in allowedOps || (allowedOps == [] && "exec" in order) then allowedCommands else [])
  {
  }

  /** The fields of a capabilities event. */
  lemma EventIs(agentUuid: string, payload: CapabilitiesPayload, stamp: Protocol.Stamp)
    ensures var env := Event(agentUuid, payload, stamp);
      && env.v == 1 && env.msgType == "capabilities" && env.agentUuid == agentUuid
      && env.payload == Some(payload) && env.timestamp == stamp.now && env.replyTo == ""
  {
    Protocol.NewIsWellFormed(agentUuid, Protocol.CAPABILITIES, payload, true, stamp);
  }

  /** The capabilities event. */
  function Event(agentUuid: string, payload: CapabilitiesPayload, stamp: Protocol.Stamp)
    : Protocol.Envelope<CapabilitiesPayload>
  {
    Protocol.New(agentUuid, Protocol.CAPABILITIES, payload, true, stamp).value
  }

  predicate Names(schemas: seq<OperationSchema>, op: string) {
    exists i | 0 <= i < |schemas| :: schemas[i].operation == op
  }

  lemma NamesExtend(schemas: seq<OperationSchema>, last: OperationSchema, op: string)
    ensures Names(schemas + [last], op) <==> Names(schemas, op) || last.operation == op
  {
    var all := schemas + [last];
    assert all[|schemas|] == last;
    assert forall i | 0 <= i < |schemas| :: all[i] == schemas[i];
  }

  /** The schemas name exactly the listed operations that the catalog has. */
  lemma {:induction false} SchemasCover(catalog: map<string, OperationSchema>, source: seq<string>, op: string)
    requires SelfNamed(catalog)
    ensures Names(Schemas(catalog, source), op) <==> op in source && op in catalog
  {
    if source != [] {
      var front, last := source[..|source| - 1], source[|source| - 1];
      SchemasCover(catalog, front, op);
      assert source == front + [last];
      if last in catalog {
        NamesExtend(Schemas(catalog, front), catalog[last], op);
      }
    }
  }

  /** A list of catalog operations keeps its length and order. */
  lemma {:induction false} SchemasInOrder(catalog: map<string, OperationSchema>, order: seq<string>)
    requires SelfNamed(catalog) && forall op | op in order :: op in catalog
    ensures |Schemas(catalog, order)| == |order|
    ensures forall i | 0 <= i < |order| :: Schemas(catalog, order)[i].operation == order[i]
  {
    if order != [] {
      SchemasInOrder(catalog, order[..|order| - 1]);
      assert order[|order| - 1] in order;
    }
  }

  predicate Announces(payload: CapabilitiesPayload, op: string) {
    Names(payload.operations, op)
  }

  /** With a configured list, exactly its supported operations are announced. */
  lemma AnnouncesSupported(allowedOps: seq<string>, allowedCommands: seq<string>, order: seq<string>, op: string)
    requires allowedOps != []
    ensures Announces(Announcement(allowedOps, allowedCommands, order), op) <==> op in allowedOps && op in CATALOG
  {
    CatalogSelfNamed();
    SchemasCover(CATALOG, allowedOps, op);
  }

  /** Without one, every supported operation is announced, each once. */
  lemma FullCatalogOnce(allowedCommands: seq<string>, order: seq<string>, op: string)
    requires IsCatalogOrder(order)
    ensures Announces(Announcement([], allowedCommands, order), op) <==> op in CATALOG
    ensures |Announcement([], allowedCommands, order).operations| == |order|
    ensures forall i, j | 0 <= i < j < |order| ::
      Announcement([], allowedCommands, order).operations[i].operation
      != Announcement([], allowedCommands, order).operations[j].operation
  {
    CatalogSelfNamed();
    SchemasCover(CATALOG, order, op);
    SchemasInOrder(CATALOG, order);
  }
}
