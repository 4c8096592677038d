/** The operator dashboard's working set (collector/src/index.rs): a bounded
    FIFO cache of session views, event buckets, a ring of recent events, and
    running totals. */
module LiveIndexes {
  import opened Basics
  import opened Events

  const MAX_SESSIONS: nat := 5000
  const MAX_EVENTS_PER_SESSION: nat := 2000
  const MAX_RECENT: nat := 500

  /** What the profiling pipeline says about a session. */
  datatype Assignment = Assignment(clusterId: int, clusterLabel: string, automated: bool)

  datatype SessionView = SessionView(
    sessionId: string, nodeId: string, protocol: string, srcIp: string, srcPort: nat, clientBanner: string, hassh: string,
    startedAt: Timestamp, endedAt: Option<Timestamp>, endReason: Option<string>, durationMs: int,
    commandCount: nat, authCount: nat, artifactCount: nat, httpRequestCount: nat,
    credentialUsed: Option<string>, detectedAttacks: seq<string>, artifactUrls: seq<string>,
    geo: Option<string>, profile: Option<Assignment>)

  type Geo = string -> Option<string>

  function ProtocolName(p: Protocol): string {
    match p
    case Ssh => "ssh" case Telnet => "telnet" case Http => "http" case Https => "https"
    case Rdp => "rdp" case CanaryProtocol => "canary" case UnknownProtocol => "unknown"
  }

  /** The view of a session nothing is known of but its first event's envelope. */
  function NewView(e: Event): SessionView {
    SessionView(e.sessionId, e.nodeId, "unknown", "", 0, "", "", e.tsCollector, None, None, 0, 0, 0, 0, 0, None, [], [], None, None)
  }

  function AddNew(list: seq<string>, x: string): seq<string> {
    if x in list then list else list + [x]
  }

  function AddAllNew(list: seq<string>, xs: seq<string>): seq<string>
    decreases |xs|
  {
    if xs == [] then list else AddNew(AddAllNew(list, xs[..|xs| - 1]), xs[|xs| - 1])
  }

  function Credential(username: string, password: string): string {
    username + ":" + password
  }

  /** One event folded into its session's view. */
  function Folded(v: SessionView, e: Event, geo: Geo): SessionView {
    match e.payload
    case SessionStart(s) =>
      v.(protocol := ProtocolName(s.protocol), srcIp := s.peer.srcIp, srcPort := s.peer.srcPort,
         clientBanner := s.clientBanner, hassh := s.hassh, geo := if s.peer.srcIp != "" then geo(s.peer.srcIp) else None)
    case SessionEnd(x) => v.(endedAt := Some(e.tsCollector), endReason := Some(x.reason), durationMs := x.durationMs)
    case Auth(u, p, ok) =>
      v.(authCount := v.authCount + 1, credentialUsed := if ok then Some(Credential(u, p)) else v.credentialUsed)
    case Command(_) => v.(commandCount := v.commandCount + 1)
    case Artifact(url) => v.(artifactCount := v.artifactCount + 1, artifactUrls := AddNew(v.artifactUrls, url))
    case HttpRequest(attacks) =>
      v.(httpRequestCount := v.httpRequestCount + 1, detectedAttacks := AddAllNew(v.detectedAttacks, attacks))
    case _ => v
  }

  // ----- Totals that outlive eviction.

  function Bump(counts: map<string, nat>, k: string): map<string, nat> {
    counts[k := (if k in counts then counts[k] else 0) + 1]
  }

  function BumpAll(counts: map<string, nat>, ks: seq<string>): map<string, nat> {
    if ks == [] then counts else Bump(BumpAll(counts, ks[..|ks| - 1]), ks[|ks| - 1])
  }

  function CredentialKeys(e: Event): seq<string> {
    if e.payload.Auth? then [Credential(e.payload.username, e.payload.password)] else []
  }

  function SourceKeys(e: Event): seq<string> {
    if e.payload.SessionStart? && e.payload.start.peer.srcIp != "" then [e.payload.start.peer.srcIp] else []
  }

  function AttackKeys(e: Event): seq<string> {
    if e.payload.HttpRequest? then e.payload.attacks else []
  }

  function ProtocolKeys(e: Event): seq<string> {
    if e.payload.SessionStart? then [ProtocolName(e.payload.start.protocol)] else []
  }

  datatype Totals = Totals(
    commands: nat, credentials: nat, artifacts: nat, canaryHits: nat,
    credentialCounts: map<string, nat>, sourceCounts: map<string, nat>,
    attackCounts: map<string, nat>, protocolCounts: map<string, nat>)

  function Counted(t: Totals, e: Event): Totals {
    Totals(
      t.commands + (if e.payload.Command? then 1 else 0),
      t.credentials + (if e.payload.Auth? then 1 else 0),
      t.artifacts + (if e.payload.Artifact? then 1 else 0),
      t.canaryHits + (if e.payload.Canary? then 1 else 0),
      BumpAll(t.credentialCounts, CredentialKeys(e)),
      BumpAll(t.sourceCounts, SourceKeys(e)),
      BumpAll(t.attackCounts, AttackKeys(e)),
      BumpAll(t.protocolCounts, ProtocolKeys(e)))
  }

  lemma BumpOne(counts: map<string, nat>, k: string)
    ensures BumpAll(counts, [k]) == Bump(counts, k)
  {
    assert [k][..0] == [];
  }

  lemma BumpNone(t: Totals)
    ensures BumpAll(t.credentialCounts, []) == t.credentialCounts && BumpAll(t.sourceCounts, []) == t.sourceCounts
    ensures BumpAll(t.attackCounts, []) == t.attackCounts && BumpAll(t.protocolCounts, []) == t.protocolCounts
  {
  }

  // ----- The index.

  datatype Cache = Cache(sessions: map<string, SessionView>, order: seq<string>, events: map<string, seq<Event>>)

  /** A sensor's health: its last heartbeat, and its session events since the first. */
  datatype NodeHealth = NodeHealth(lastSeen: Timestamp, health: HeartbeatInfo, events: nat)

  datatype Index = Index(
    cache: Cache, recent: seq<Event>, totalEvents: nat, totals: Totals, nodes: map<string, NodeHealth>)

  const EMPTY: Index := Index(Cache(map[], [], map[]), [], 0, Totals(0, 0, 0, 0, map[], map[], map[], map[]), map[])

  /** The fleet's health after one event: a heartbeat outside any session is news of
      its sensor, and a session event of a known sensor is counted. */
  function Seen(nodes: map<string, NodeHealth>, e: Event): map<string, NodeHealth> {
    if e.sessionId == "" then
      if e.payload.Heartbeat? then
        var counted := if e.nodeId in nodes then nodes[e.nodeId].events else 0;
        nodes[e.nodeId := NodeHealth(e.tsCollector, e.payload.health, counted)]
      else nodes
    else if e.nodeId in nodes then
      nodes[e.nodeId := nodes[e.nodeId].(events := nodes[e.nodeId].events + 1, lastSeen := e.tsCollector)]
    else nodes
  }

  /** Drop the oldest sessions until the bound holds. */
  function Trimmed(c: Cache): Cache
    decreases |c.order|
  {
    if |c.order| <= MAX_SESSIONS then c
    else Trimmed(Cache(c.sessions - {c.order[0]}, c.order[1..], c.events - {c.order[0]}))
  }

  /** The cache with a view for the event's session. */
  function Admitted(c: Cache, e: Event): Cache {
    if e.sessionId in c.sessions then c
    else Trimmed(c.(sessions := c.sessions[e.sessionId := NewView(e)], order := c.order + [e.sessionId]))
  }

  /** The sessions once the assignments to these ids are made. */
  function Assigned(sessions: map<string, SessionView>, assignments: map<string, Assignment>, done: set<string>): map<string, SessionView>
    requires done <= assignments.Keys
  {
    map sid | sid in sessions :: if sid in done then sessions[sid].(profile := Some(assignments[sid])) else sessions[sid]
  }

  lemma AssignedNext(sessions: map<string, SessionView>, assignments: map<string, Assignment>, done: set<string>, sid: string)
    requires done <= assignments.Keys && sid in assignments.Keys - done
    ensures var now := Assigned(sessions, assignments, done);
            && (sid in now <==> sid in sessions)
            && Assigned(sessions, assignments, done + {sid})
               == if sid in now then now[sid := now[sid].(profile := Some(assignments[sid]))] else now
  {
  }

  lemma NoneAssigned(sessions: map<string, SessionView>, assignments: map<string, Assignment>)
    ensures Assigned(sessions, assignments, {}) == sessions
  {
  }

  /** The cache with the event folded into its session's view and bucket. */
  function Recorded(c: Cache, e: Event, geo: Geo): Cache {
    var bucket := if e.sessionId in c.events then c.events[e.sessionId] else [];
    c.(sessions := if e.sessionId in c.sessions then c.sessions[e.sessionId := Folded(c.sessions[e.sessionId], e, geo)] else c.sessions,
       events := c.events[e.sessionId := if |bucket| < MAX_EVENTS_PER_SESSION then bucket + [e] else bucket])
  }

  function Ingested(ix: Index, e: Event, geo: Geo): Index {
    var counted := ix.(totalEvents := ix.totalEvents + 1, nodes := Seen(ix.nodes, e));
    if e.sessionId == "" then counted
    else counted.(cache := Recorded(Admitted(ix.cache, e), e, geo), recent := Suffix(ix.recent + [e], MAX_RECENT),
                  totals := Counted(ix.totals, e))
  }

  function Profiled(ix: Index, assignments: map<string, Assignment>): Index {
    var c := ix.cache;
    ix.(cache := c.(sessions := Assigned(c.sessions, assignments, assignments.Keys)))
  }

  class LiveIndex {
    const geo: Geo
    var sessions: map<string, SessionView>
    var order: seq<string>
    var events: map<string, seq<Event>>
    var recent: seq<Event>
    var totalEvents: nat
    var totals: Totals
    var nodes: map<string, NodeHealth>

    function View(): Index
      reads this
    {
      Index(Cache(sessions, order, events), recent, totalEvents, totals, nodes)
    }

    constructor (geo: Geo)
      ensures View() == EMPTY && this.geo == geo
    {
      this.geo := geo;
      sessions, order, events, recent, totalEvents := map[], [], map[], [], 0;
      totals, nodes := Totals(0, 0, 0, 0, map[], map[], map[], map[]), map[];
    }

    /** Makes room for and creates a view, if the session has none. */
    method Admit(e: Event)
      modifies this`sessions, this`order, this`events
      ensures Cache(sessions, order, events) == Admitted(Cache(old(sessions), old(order), old(events)), e)
    {
      if e.sessionId !in sessions {
        sessions := sessions[e.sessionId := NewView(e)];
        order := order + [e.sessionId];
        ghost var full := Cache(sessions, order, events);
        while |order| > MAX_SESSIONS
          invariant Trimmed(full) == Trimmed(Cache(sessions, order, events))
          decreases |order|
        {
          var oldest := order[0];
          order := order[1..];
          sessions := sessions - {oldest};
          events := events - {oldest};
        }
      }
    }

    /** Folds an event into its session's view and bucket. */
    method Record(e: Event)
      modifies this`sessions, this`events
      ensures Cache(sessions, order, events) == Recorded(Cache(old(sessions), order, old(events)), e, geo)
    {
      hide Folded;
      if e.sessionId in sessions {
        sessions := sessions[e.sessionId := Folded(sessions[e.sessionId], e, geo)];
      }
      var bucket := if e.sessionId in events then events[e.sessionId] else [];
      if |bucket| < MAX_EVENTS_PER_SESSION {
        bucket := bucket + [e];
      }
      events := events[e.sessionId := bucket];
    }

    /** Pushes an event onto the ring of recent ones. */
    method Remember(e: Event)
      modifies this`recent
      ensures recent == Suffix(old(recent) + [e], MAX_RECENT)
    {
      recent := recent + [e];
      ghost var all := recent;
      while |recent| > MAX_RECENT
        invariant Suffix(all, MAX_RECENT) == Suffix(recent, MAX_RECENT)
        decreases |recent|
      {
        recent := recent[1..];
      }
    }

    /** Folds one event into the index. */
    method Ingest(e: Event)
      modifies this
      ensures View() == Ingested(old(View()), e, geo)
    {
      hide Admitted, Recorded, Counted;
      totalEvents := totalEvents + 1;
      if e.sessionId == "" {
        if e.payload.Heartbeat? {
          if e.nodeId !in nodes {
            nodes := nodes[e.nodeId := NodeHealth(e.tsCollector, HeartbeatInfo(0, 0, 0, ""), 0)];
          }
          nodes := nodes[e.nodeId := nodes[e.nodeId].(lastSeen := e.tsCollector, health := e.payload.health)];
        }
        return;
      }
      if e.nodeId in nodes {
        nodes := nodes[e.nodeId := nodes[e.nodeId].(events := nodes[e.nodeId].events + 1, lastSeen := e.tsCollector)];
      }
      Admit(e);
      Tally(e);
      Record(e);
      Remember(e);
    }

    /** The counters and count maps, by kind of event. */
    method Tally(e: Event)
      modifies this`totals
      ensures totals == Counted(old(totals), e)
    {
      var t := totals;
      BumpNone(t);
      match e.payload {
        case SessionStart(s) =>
          var name := ProtocolName(s.protocol);
          BumpOne(t.protocolCounts, name);
          BumpOne(t.sourceCounts, s.peer.srcIp);
          t := t.(protocolCounts := Bump(t.protocolCounts, name));
          if s.peer.srcIp != "" {
            t := t.(sourceCounts := Bump(t.sourceCounts, s.peer.srcIp));
          }
        case Auth(u, p, _) =>
          BumpOne(t.credentialCounts, Credential(u, p));
          t := t.(credentials := t.credentials + 1, credentialCounts := Bump(t.credentialCounts, Credential(u, p)));
        case Command(_) => t := t.(commands := t.commands + 1);
        case Artifact(_) => t := t.(artifacts := t.artifacts + 1);
        case Canary(_) => t := t.(canaryHits := t.canaryHits + 1);
        case HttpRequest(attacks) =>
          var counts := t.attackCounts;
          for i := 0 to |attacks|
            invariant counts == BumpAll(t.attackCounts, attacks[..i])
          {
            assert attacks[..i + 1][..i] == attacks[..i];
            counts := Bump(counts, attacks[i]);
          }
          assert attacks[..|attacks|] == attacks;
          t := t.(attackCounts := counts);
        case _ =>
      }
      totals := t;
    }

    /** Applies clustering results to the sessions still held. */
    method ApplyProfile(assignments: map<string, Assignment>)
      modifies this`sessions
      ensures View() == Profiled(old(View()), assignments)
    {
      hide Assigned;
      NoneAssigned(sessions, assignments);
      var todo := assignments.Keys;
      assert assignments.Keys - todo == {};
      while todo != {}
        invariant todo <= assignments.Keys && sessions == Assigned(old(sessions), assignments, assignments.Keys - todo)
        decreases |todo|
      {
        var sid :| sid in todo;
        AssignedNext(old(sessions), assignments, assignments.Keys - todo, sid);
        assert assignments.Keys - (todo - {sid}) == assignments.Keys - todo + {sid};
        if sid in sessions {
          sessions := sessions[sid := sessions[sid].(profile := Some(assignments[sid]))];
        }
        todo := todo - {sid};
      }
      assert assignments.Keys - todo == assignments.Keys;
    }
  }
}
