/** The message envelope, its construction, and the subjects of one agent. */
module Protocol {
  import opened Basics
  import opened Uuid

  const CAPABILITIES: string := "capabilities"
  const TELEMETRY: string := "telemetry"
  const RESULT: string := "result"

  const COMPLETED: string := "completed"
  const FAILED: string := "failed"
  const REJECTED: string := "rejected"

  /** P is the type of payloads; marshalling one may fail. */
  datatype Envelope<P> = Envelope(
    v: int, id: string, msgType: string, agentType: string, agentUuid: string,
    timestamp: int, replyTo: string, payload: Option<P>)

  /** Go's zero value, which a failed construction leaves behind. */
  function ZeroEnvelope<P>(): Envelope<P> {
    Envelope(0, "", "", "", "", 0, "", None)
  }

  /** What the environment contributes to a new envelope. */
  datatype Stamp = Stamp(random: Bytes16, now: int)

  /** New: None when the payload cannot be marshalled. */
  function New<P>(agentUuid: string, msgType: string, payload: P, marshals: bool, stamp: Stamp)
    : Option<Envelope<P>>
  {
    if !marshals then None
    else
      Some(Envelope(1, UuidText(Stamped(stamp.random)), msgType, "vm", agentUuid, stamp.now, "", Some(payload)))
  }

  /** Every envelope that is built carries version 1, its type, sender and payload, the
      clock's time, a version 4 identifier and no reply subject. */
  lemma NewIsWellFormed<P>(agentUuid: string, msgType: string, payload: P, marshals: bool, stamp: Stamp)
    ensures New(agentUuid, msgType, payload, marshals, stamp).Some? <==> marshals
    ensures marshals ==>
      var env := New(agentUuid, msgType, payload, marshals, stamp).value;
      && env.v == 1 && env.msgType == msgType && env.agentType == "vm" && env.agentUuid == agentUuid
      && env.payload == Some(payload) && env.timestamp == stamp.now && env.replyTo == ""
      && |env.id| == 36 && env.id[14] == '4' && env.id[19] in "89ab"
      && ReadUuid(env.id) == Some(Stamped(stamp.random))
  {
    VersionAndVariant(stamp.random);
    ReadUuidText(Stamped(stamp.random));
  }

  function CmdSubject(agentUuid: string): string {
    "agent.vm." + agentUuid + ".cmd"
  }

  function EvtSubject(agentUuid: string): string {
    "agent.vm." + agentUuid + ".evt"
  }

  function TelemetrySubject(agentUuid: string): string {
    "vm." + agentUuid + ".telemetry"
  }

  /** The agent's identifier is the middle of each subject. */
  lemma SubjectsAre(agentUuid: string)
    ensures CmdSubject(agentUuid) == "agent.vm." + agentUuid + ".cmd"
    ensures EvtSubject(agentUuid) == "agent.vm." + agentUuid + ".evt"
    ensures TelemetrySubject(agentUuid) == "vm." + agentUuid + ".telemetry"
  {
  }

  /** The three subjects of an agent differ, whatever its identifier. */
  lemma SubjectsDiffer(agentUuid: string)
    ensures EvtSubject(agentUuid) != TelemetrySubject(agentUuid)
    ensures CmdSubject(agentUuid) != TelemetrySubject(agentUuid)
    ensures CmdSubject(agentUuid) != EvtSubject(agentUuid)
  {
    assert EvtSubject(agentUuid)[0] == 'a' && TelemetrySubject(agentUuid)[0] == 'v';
    assert CmdSubject(agentUuid)[0] == 'a';
    var n := |agentUuid| + 10;
    assert CmdSubject(agentUuid)[n] == 'c' && EvtSubject(agentUuid)[n] == 'e';
  }

  /** One publish call: it may fail, and then nothing reaches the subject. */
  datatype Attempt<P> = Attempt(subject: string, env: Envelope<P>, ok: bool)

  /** What has reached a subject. */
  function Delivered<P>(attempts: seq<Attempt<P>>, subject: string): seq<Envelope<P>> {
    if attempts == [] then []
    else
      var a, earlier := attempts[|attempts| - 1], Delivered(attempts[..|attempts| - 1], subject);
      if a.ok && a.subject == subject then earlier + [a.env] else earlier
  }

  /** The envelopes of one message type. */
  function OfType<P>(envs: seq<Envelope<P>>, msgType: string): seq<Envelope<P>> {
    if envs == [] then []
    else
      var e, earlier := envs[|envs| - 1], OfType(envs[..|envs| - 1], msgType);
      if e.msgType == msgType then earlier + [e] else earlier
  }

  lemma DeliveredExtend<P>(attempts: seq<Attempt<P>>, a: Attempt<P>, subject: string)
    ensures Delivered(attempts + [a], subject)
         == if a.ok && a.subject == subject then Delivered(attempts, subject) + [a.env]
            else Delivered(attempts, subject)
  {
    assert (attempts + [a])[..|attempts|] == attempts;
  }

  lemma OfTypeExtend<P>(envs: seq<Envelope<P>>, e: Envelope<P>, msgType: string)
    ensures OfType(envs + [e], msgType)
         == if e.msgType == msgType then OfType(envs, msgType) + [e] else OfType(envs, msgType)
  {
    assert (envs + [e])[..|envs|] == envs;
  }

  /** The client's publish calls, in order. */
  class Client<P> {
    const agentUuid: string
    var attempts: seq<Attempt<P>>

    constructor (agentUuid: string)
      ensures this.agentUuid == agentUuid && attempts == []
    {
      this.agentUuid := agentUuid;
      attempts := [];
    }

    /** The broker's answer is a parameter. Marshalling env itself cannot fail: its payload
        was marshalled when it was built. */
    method PublishToSubject(subject: string, env: Envelope<P>, brokerOk: bool) returns (ok: bool)
      modifies this
      ensures ok == brokerOk
      ensures attempts == old(attempts) + [Attempt(subject, env, ok)]
    {
      ok := brokerOk;
      attempts := attempts + [Attempt(subject, env, ok)];
    }

    method Publish(env: Envelope<P>, brokerOk: bool) returns (ok: bool)
      modifies this
      ensures ok == brokerOk
      ensures attempts == old(attempts) + [Attempt(EvtSubject(agentUuid), env, ok)]
    {
      ok := PublishToSubject(EvtSubject(agentUuid), env, brokerOk);
    }
  }
}
