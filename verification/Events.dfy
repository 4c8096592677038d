/** Wire envelopes and canonical events (collector/src/model.rs), with the fields
    the collector's decisions depend on. */
module Events {
  import opened Basics

  /** Microseconds since some epoch; only compared and copied. */
  type Timestamp = int

  datatype Protocol = Ssh | Telnet | Http | Https | Rdp | CanaryProtocol | UnknownProtocol

  datatype Peer = Peer(srcIp: string, srcPort: nat, dstIp: string, dstPort: nat)

  datatype StartInfo = StartInfo(protocol: Protocol, peer: Peer, clientBanner: string, hassh: string)

  datatype EndInfo = EndInfo(
    reason: string, durationMs: int, commandCount: nat, authAttempts: nat, bytesIn: nat, bytesOut: nat)

  datatype HeartbeatInfo = HeartbeatInfo(uptimeMs: int, spoolDepth: nat, spoolDropped: nat, buildVersion: string)

  datatype Payload =
    | SessionStart(start: StartInfo)
    | SessionEnd(end: EndInfo)
    | Auth(username: string, password: string, success: bool)
    | Command(raw: string)
    | Artifact(url: string)
    | HttpRequest(attacks: seq<string>)
    | Canary(token: string)
    | Heartbeat(health: HeartbeatInfo)
    | OtherPayload(kind: string, detail: string)

  /** What a sensor claims, as decoded from the wire. */
  datatype Envelope = Envelope(
    nodeId: string, seqNo: nat, sessionId: string, schemaVersion: nat, tsNode: Option<Timestamp>, event: Option<Payload>)

  /** A validated observation. */
  datatype Event = Event(
    nodeId: string, seqNo: nat, sessionId: string, tsNode: Timestamp, tsCollector: Timestamp, payload: Payload)
}
