/** The collector's ingest path: attribute, decode, normalize, track, store
    (collector/src/ingest.rs, collector/src/normalize.rs, collector/src/store.rs). */
module Ingest {
  import opened Basics
  import opened Events
  import opened SeqTracking
  import opened SessionRows

  // ----- Identity from the subject.

  const SUBJECT_PREFIX: string := "honeynet.events"

  /** The part of a string before the first dot. */
  function FirstToken(s: string): (token: string)
    ensures '.' !in token && token <= s
    ensures token == s || s[|token|] == '.'
  {
    if s == [] || s[0] == '.' then [] else [s[0]] + FirstToken(s[1..])
  }

  function NodeFromSubject(subject: string): Option<string> {
    if !(SUBJECT_PREFIX <= subject) then None
    else
      var rest := subject[|SUBJECT_PREFIX|..];
      if rest == [] || rest[0] != '.' then None
      else
        var node := FirstToken(rest[1..]);
        if node == [] then None else Some(node)
  }

  /** A subject names a node exactly when it is the prefix, a dot, the non-empty
      dot-free node, and then nothing or a further dotted part. */
  lemma NodeFromSubjectIff(subject: string, node: string)
    ensures NodeFromSubject(subject) == Some(node) <==>
      node != [] && '.' !in node &&
      exists tail: string :: subject == SUBJECT_PREFIX + "." + node + tail && (tail == [] || tail[0] == '.')
  {
    if NodeFromSubject(subject) == Some(node) {
      var rest := subject[|SUBJECT_PREFIX| + 1..];
      var tail := rest[|node|..];
      assert subject == SUBJECT_PREFIX + "." + rest;
      assert rest == node + tail;
      assert subject == SUBJECT_PREFIX + "." + node + tail;
    }
    if node != [] && '.' !in node &&
       exists tail: string :: subject == SUBJECT_PREFIX + "." + node + tail && (tail == [] || tail[0] == '.') {
      var tail: string :| subject == SUBJECT_PREFIX + "." + node + tail && (tail == [] || tail[0] == '.');
      assert subject[|SUBJECT_PREFIX|..][1..] == node + tail;
      FirstTokenOf(node, tail);
    }
  }

  lemma {:induction false} FirstTokenOf(node: string, tail: string)
    requires '.' !in node && (tail == [] || tail[0] == '.')
    ensures FirstToken(node + tail) == node
  {
    if node == [] {
      assert node + tail == tail;
    } else {
      FirstTokenOf(node[1..], tail);
      assert (node + tail)[1..] == node[1..] + tail;
    }
  }

  /** A sensor's own subject, `honeynet.events.<node_id>`, names that sensor
      exactly when its id is non-empty and dot-free, as the node configuration requires. */
  lemma OwnSubjectIff(node: string)
    ensures NodeFromSubject(SUBJECT_PREFIX + "." + node) == Some(node) <==> node != [] && '.' !in node
  {
    NodeFromSubjectIff(SUBJECT_PREFIX + "." + node, node);
    assert SUBJECT_PREFIX + "." + node == SUBJECT_PREFIX + "." + node + [];
  }

  // ----- The gate in front of the store.

  const MAX_SCHEMA_VERSION: nat := 1

  datatype NormalizeError = MissingNodeId | IdentityMismatch | MissingSeq | UnsupportedSchema | BadSessionId | EmptyEvent

  datatype Normalized = Ok(event: Event) | Rejected(error: NormalizeError)

  const ULID_ALPHABET: string := "0123456789ABCDEFGHJKMNPQRSTVWXYZabcdefghjkmnpqrstvwxyz"

  predicate IsUlid(s: string) {
    |s| == 26 && forall i :: 0 <= i < |s| ==> s[i] in ULID_ALPHABET
  }

  function Normalize(env: Envelope, authenticated: string, now: Timestamp): (r: Normalized)
    ensures r.Ok? ==> r.event.nodeId == authenticated != [] && r.event.seqNo == env.seqNo > 0
                      && r.event.sessionId == env.sessionId && r.event.tsCollector == now
                      && env.event == Some(r.event.payload)
    ensures r == Rejected(IdentityMismatch) <==> env.nodeId != [] && env.nodeId != authenticated
  {
    if env.nodeId == [] then Rejected(MissingNodeId)
    else if env.nodeId != authenticated then Rejected(IdentityMismatch)
    else if env.seqNo == 0 then Rejected(MissingSeq)
    else if env.schemaVersion > MAX_SCHEMA_VERSION then Rejected(UnsupportedSchema)
    else if env.sessionId != [] && !IsUlid(env.sessionId) then Rejected(BadSessionId)
    else if env.event.None? then Rejected(EmptyEvent)
    else Ok(Event(env.nodeId, env.seqNo, env.sessionId,
                  if env.tsNode.Some? then env.tsNode.value else now, now, env.event.value))
  }

  // ----- Messages and the collector's state.

  /** Which database statement of `put_event`, if any, fails. */
  datatype Fault = NoFault | SerializeFault | SessionFault | EventFault | ChildFault

  /** One delivery: subject, decoding of the payload (protobuf errors give
      `None`), receive time, and how the database behaves. */
  datatype Message = Message(subject: string, decoded: Option<Envelope>, now: Timestamp, fault: Fault)

  datatype Stats = Stats(
    received: nat, stored: nat, rejectedIdentity: nat, rejectedDecode: nat, rejectedOther: nat,
    gaps: nat, replays: nat, missingEvents: nat)

  /** `seq as i64`: the same 64 bits read as a signed number. */
  function AsI64(n: nat): int
    requires n < U64
  {
    if n < U64 / 2 then n else n - U64
  }

  /** The primary key of the events table. */
  type RowKey = (string, int)

  datatype Collector = Collector(
    last: map<string, U64Value>,
    stats: Stats,
    events: map<RowKey, Event>,
    sessions: map<string, SessionRow>,
    observed: seq<Event>)

  const EMPTY: Collector := Collector(map[], Stats(0, 0, 0, 0, 0, 0, 0, 0), map[], map[], [])

  function KeyOf(e: Event): RowKey
    requires e.seqNo < U64
  {
    (e.nodeId, AsI64(e.seqNo))
  }

  function SessionUpserted(sessions: map<string, SessionRow>, e: Event): map<string, SessionRow> {
    var row := if e.sessionId in sessions then Some(sessions[e.sessionId]) else None;
    sessions[e.sessionId := Upsert(row, e)]
  }

  /** Credentials and artifacts have a row of their own, written last. */
  predicate HasChildRow(e: Event) {
    e.payload.Auth? || e.payload.Artifact?
  }

  /** The `sessions` statement runs and succeeds. */
  predicate SessionWritten(e: Event, fault: Fault) {
    e.sessionId != [] && !fault.SerializeFault? && !fault.SessionFault?
  }

  /** Control reaches the `events` statement and it succeeds. */
  predicate EventWritten(e: Event, fault: Fault) {
    !fault.SerializeFault? && !fault.EventFault? && (e.sessionId == [] || !fault.SessionFault?)
  }

  /** `put_event` returns Ok. */
  predicate PutSucceeds(e: Event, fault: Fault) {
    EventWritten(e, fault) && !(fault.ChildFault? && HasChildRow(e))
  }

  class Ingestor {
    var tracker: SeqTracker
    var stats: Stats
    var events: map<RowKey, Event>
    var sessions: map<string, SessionRow>
    var observed: seq<Event>

    function View(): Collector
      reads this, tracker
    {
      Collector(tracker.last, stats, events, sessions, observed)
    }

    constructor ()
      ensures View() == EMPTY && fresh(tracker)
    {
      tracker := new SeqTracker();
      stats, events, sessions, observed := Stats(0, 0, 0, 0, 0, 0, 0, 0), map[], map[], [];
    }

    /** The statements of `put_event` on the `sessions` and `events` tables. */
    method PutEvent(e: Event, fault: Fault) returns (ok: bool)
      requires e.seqNo < U64
      modifies this`events, this`sessions
      ensures ok == PutSucceeds(e, fault)
      ensures sessions == if SessionWritten(e, fault) then SessionUpserted(old(sessions), e) else old(sessions)
      ensures events == if EventWritten(e, fault) && KeyOf(e) !in old(events) then old(events)[KeyOf(e) := e] else old(events)
    {
      if fault == SerializeFault {
        return false;
      }
      if e.sessionId != [] {
        if fault == SessionFault {
          return false;
        }
        sessions := SessionUpserted(sessions, e);
      }
      if fault == EventFault {
        return false;
      }
      if KeyOf(e) !in events {
        events := events[KeyOf(e) := e];
      }
      return !(fault == ChildFault && HasChildRow(e));
    }

    /** The checks before the store: subject, decoding, normalization. */
    method Gate(m: Message) returns (r: Option<Event>)
      modifies this`stats
      ensures r == Accept(m)
      ensures stats == if r.None? then Refused(old(stats), m) else old(stats)
    {
      var node := NodeFromSubject(m.subject);
      if node.None? {
        stats := stats.(rejectedOther := stats.rejectedOther + 1);
        return None;
      }
      if m.decoded.None? {
        stats := stats.(rejectedDecode := stats.rejectedDecode + 1);
        return None;
      }
      var normalized := Normalize(m.decoded.value, node.value, m.now);
      if normalized.Ok? {
        return Some(normalized.event);
      }
      if normalized.error.IdentityMismatch? {
        stats := stats.(rejectedIdentity := stats.rejectedIdentity + 1);
      } else {
        stats := stats.(rejectedOther := stats.rejectedOther + 1);
      }
      return None;
    }

    /** The counters for the tracker's verdict. */
    method CountStatus(status: SeqStatus)
      modifies this`stats
      ensures stats == Counted(old(stats), status)
    {
      if status.Gap? {
        stats := stats.(gaps := stats.gaps + 1, missingEvents := stats.missingEvents + status.missing);
      } else if status.Replay? {
        stats := stats.(replays := stats.replays + 1);
      }
    }

    /** Processes one raw message; returns the stored event or `None`. */
    method Handle(m: Message) returns (r: Option<Event>)
      requires WellSized(m)
      modifies this`stats, this`events, this`sessions, this`observed, tracker
      ensures View() == Handled(old(View()), m)
      ensures r == if Accept(m).Some? && PutSucceeds(Accept(m).value, m.fault) then Accept(m) else None
    {
      hide Accept, Refused, SessionUpserted, KeyOf, Verdict, Track, Lookup, PutSucceeds, SessionWritten, EventWritten, Counted;
      stats := stats.(received := stats.received + 1);
      var accepted := Gate(m);
      if accepted.None? {
        return None;
      }
      var e := accepted.value;
      var status := tracker.Observe(e.nodeId, e.seqNo);
      CountStatus(status);
      var ok := PutEvent(e, m.fault);
      if !ok {
        stats := stats.(rejectedOther := stats.rejectedOther + 1);
        return None;
      }
      stats := stats.(stored := stats.stored + 1);
      observed := observed + [e];
      return Some(e);
    }
  }

  /** The event says what the envelope said. */
  predicate Matches(env: Envelope, e: Event) {
    && e.nodeId == env.nodeId && e.seqNo == env.seqNo && e.sessionId == env.sessionId
    && env.event == Some(e.payload)
    && (env.tsNode.Some? ==> e.tsNode == env.tsNode.value)
  }

  /** The event a message stands for, once it has passed every gate. */
  function Accept(m: Message): (r: Option<Event>)
    ensures r.Some? ==> NodeFromSubject(m.subject) == Some(r.value.nodeId)
                        && m.decoded.Some? && r.value.seqNo > 0 && Matches(m.decoded.value, r.value)
  {
    var node := NodeFromSubject(m.subject);
    if node.None? || m.decoded.None? then None
    else
      var normalized := Normalize(m.decoded.value, node.value, m.now);
      if normalized.Ok? then Some(normalized.event) else None
  }

  predicate WellSized(m: Message) {
    m.decoded.Some? ==> m.decoded.value.seqNo < U64
  }

  /** The collector's state after one message. */
  function Handled(c: Collector, m: Message): Collector
    requires WellSized(m)
  {
    var received := c.stats.(received := c.stats.received + 1);
    var accepted := Accept(m);
    if accepted.None? then c.(stats := Refused(received, m))
    else
      var e := accepted.value;
      var tracked := Counted(received, Verdict(Lookup(c.last, e.nodeId), e.seqNo));
      Collector(
        Track(c.last, e.nodeId, e.seqNo),
        if PutSucceeds(e, m.fault) then tracked.(stored := tracked.stored + 1)
        else tracked.(rejectedOther := tracked.rejectedOther + 1),
        if EventWritten(e, m.fault) && KeyOf(e) !in c.events then c.events[KeyOf(e) := e] else c.events,
        if SessionWritten(e, m.fault) then SessionUpserted(c.sessions, e) else c.sessions,
        if PutSucceeds(e, m.fault) then c.observed + [e] else c.observed)
  }

  /** The counters after a message that did not pass the gates. */
  function Refused(s: Stats, m: Message): Stats {
    var node := NodeFromSubject(m.subject);
    if node.None? then s.(rejectedOther := s.rejectedOther + 1)
    else if m.decoded.None? then s.(rejectedDecode := s.rejectedDecode + 1)
    else if Normalize(m.decoded.value, node.value, m.now) == Rejected(IdentityMismatch)
    then s.(rejectedIdentity := s.rejectedIdentity + 1)
    else s.(rejectedOther := s.rejectedOther + 1)
  }

  /** The counters after a sequence verdict. */
  function Counted(s: Stats, status: SeqStatus): Stats {
    match status
    case Gap(_, _, missing) => s.(gaps := s.gaps + 1, missingEvents := s.missingEvents + missing)
    case Replay(_, _) => s.(replays := s.replays + 1)
    case _ => s
  }

  // ----- Whole runs.

  ghost predicate AllWellSized(ms: seq<Message>) {
    forall m :: m in ms ==> WellSized(m)
  }

  /** The collector after a run of deliveries, in order of arrival. */
  function RunFrom(c: Collector, ms: seq<Message>): Collector
    requires AllWellSized(ms)
  {
    if ms == [] then c else Handled(RunFrom(c, ms[..|ms| - 1]), ms[|ms| - 1])
  }

  function Run(ms: seq<Message>): Collector
    requires AllWellSized(ms)
  {
    RunFrom(EMPTY, ms)
  }

  lemma HandledCounts(c: Collector, m: Message)
    requires WellSized(m)
    ensures var s, t := c.stats, Handled(c, m).stats;
            t.received == s.received + 1 &&
            t.stored + t.rejectedIdentity + t.rejectedDecode + t.rejectedOther
              == s.stored + s.rejectedIdentity + s.rejectedDecode + s.rejectedOther + 1 &&
            t.stored - s.stored == |Handled(c, m).observed| - |c.observed|
  {
    hide NodeFromSubject, Normalize, SessionUpserted, KeyOf, Verdict, Track, Lookup, PutSucceeds, SessionWritten, EventWritten, Accept;
  }

  /** Every message received is stored or rejected, and counted once. */
  lemma {:induction false} CountersBalance(ms: seq<Message>)
    requires AllWellSized(ms)
    ensures var s := Run(ms).stats;
            s.received == |ms| == s.stored + s.rejectedIdentity + s.rejectedDecode + s.rejectedOther
    ensures Run(ms).stats.stored == |Run(ms).observed|
  {
    hide Handled;
    if ms != [] {
      CountersBalance(ms[..|ms| - 1]);
      HandledCounts(Run(ms[..|ms| - 1]), ms[|ms| - 1]);
    }
  }

  /** The row a message would insert. */
  function Inserts(m: Message): (r: Option<Event>)
    ensures r.Some? ==> NodeFromSubject(m.subject) == Some(r.value.nodeId)
                        && m.decoded.Some? && r.value.seqNo > 0 && Matches(m.decoded.value, r.value)
  {
    var accepted := Accept(m);
    if accepted.Some? && EventWritten(accepted.value, m.fault) then accepted else None
  }

  predicate InsertsKey(m: Message, k: RowKey)
    requires WellSized(m)
  {
    Inserts(m).Some? && KeyOf(Inserts(m).value) == k
  }

  lemma HandledRow(c: Collector, m: Message, k: RowKey)
    requires WellSized(m)
    ensures k in Handled(c, m).events <==> k in c.events || InsertsKey(m, k)
    ensures k in c.events ==> Handled(c, m).events[k] == c.events[k]
    ensures k !in c.events && InsertsKey(m, k) ==> Handled(c, m).events[k] == Inserts(m).value
  {
    hide NodeFromSubject, Normalize, SessionUpserted, KeyOf, Verdict, Track, Lookup, PutSucceeds, SessionWritten, EventWritten, Accept;
  }

  /** What the first message to insert a key carried, reading from the front. */
  function FirstInserted(ms: seq<Message>, k: RowKey): Option<Event>
    requires AllWellSized(ms)
  {
    if ms == [] then None
    else if InsertsKey(ms[0], k) then Inserts(ms[0])
    else FirstInserted(ms[1..], k)
  }

  lemma {:induction false} FirstInsertedFrom(ms: seq<Message>, k: RowKey)
    requires AllWellSized(ms)
    ensures FirstInserted(ms, k).Some? <==> exists m :: m in ms && InsertsKey(m, k)
    ensures FirstInserted(ms, k).Some? ==> exists m :: m in ms && InsertsKey(m, k) && Inserts(m) == FirstInserted(ms, k)
  {
    if ms != [] {
      FirstInsertedFrom(ms[1..], k);
      assert forall m :: m in ms <==> m == ms[0] || m in ms[1..];
    }
  }

  lemma {:induction false} FirstInsertedSnoc(ms: seq<Message>, m: Message, k: RowKey)
    requires AllWellSized(ms) && WellSized(m)
    ensures FirstInserted(ms + [m], k) ==
      if FirstInserted(ms, k).Some? then FirstInserted(ms, k) else if InsertsKey(m, k) then Inserts(m) else None
  {
    hide Inserts;
    if ms == [] {
      assert ms + [m] == [m] && [m][1..] == [];
    } else {
      FirstInsertedSnoc(ms[1..], m, k);
      assert (ms + [m])[1..] == ms[1..] + [m];
    }
  }

  /** First arrival wins: the table has a row for a key exactly when some message
      inserted it, and the row is what the first such message carried. */
  lemma {:induction false} FirstArrivalWins(ms: seq<Message>, k: RowKey)
    requires AllWellSized(ms)
    ensures FirstInserted(ms, k) == if k in Run(ms).events then Some(Run(ms).events[k]) else None
  {
    hide Handled, Inserts;
    if ms != [] {
      var init, m := ms[..|ms| - 1], ms[|ms| - 1];
      FirstArrivalWins(init, k);
      HandledRow(Run(init), m, k);
      FirstInsertedSnoc(init, m, k);
      assert ms == init + [m];
    }
  }

  /** The `seq as i64` cast never merges two sequence numbers. */
  lemma CastInjective(m: nat, n: nat)
    requires m < U64 && n < U64
    ensures AsI64(m) == AsI64(n) <==> m == n
  {
  }

  /** A row's node is the node of the subject it arrived on, its number is the
      number it claimed, and it is filed under both. */
  lemma Attributed(ms: seq<Message>, k: RowKey)
    requires AllWellSized(ms) && k in Run(ms).events
    ensures exists m :: m in ms && InsertsKey(m, k) && Inserts(m) == Some(Run(ms).events[k])
    ensures Run(ms).events[k].nodeId == k.0 && Run(ms).events[k].seqNo < U64 && AsI64(Run(ms).events[k].seqNo) == k.1
  {
    hide Run, Inserts;
    FirstArrivalWins(ms, k);
    FirstInsertedFrom(ms, k);
  }

  /** Two deliveries of one message, whenever each is received and however the
      database behaves. */
  predicate SameMessage(a: Message, b: Message) {
    a.subject == b.subject && a.decoded == b.decoded
  }

  /** Whatever one of these deliveries wrote, a delivery of the same message among
      the others wrote too. */
  ghost predicate WrittenToo(some: seq<Message>, others: seq<Message>) {
    forall a :: a in some && Inserts(a).Some? ==> exists m :: m in others && SameMessage(a, m) && Inserts(m).Some?
  }

  /** The row, received when `other` was. */
  function ReceivedWith(e: Event, env: Envelope, other: Event): Event {
    e.(tsCollector := other.tsCollector, tsNode := if env.tsNode.Some? then e.tsNode else other.tsNode)
  }

  lemma SameInserts(a: Message, b: Message, k: RowKey)
    requires WellSized(a) && WellSized(b) && a.decoded == b.decoded && InsertsKey(a, k) && InsertsKey(b, k)
    ensures Inserts(b).value == ReceivedWith(Inserts(a).value, a.decoded.value, Inserts(b).value)
  {
    hide NodeFromSubject, EventWritten, IsUlid;
  }

  lemma SameKeys(a: Message, b: Message, k: RowKey)
    requires SameMessage(a, b) && WellSized(a) && WellSized(b) && Inserts(a).Some? && Inserts(b).Some?
    ensures InsertsKey(a, k) <==> InsertsKey(b, k)
  {
    hide NodeFromSubject, IsUlid, EventWritten;
  }

  lemma WrittenKey(some: seq<Message>, others: seq<Message>, k: RowKey, a: Message) returns (m: Message)
    requires AllWellSized(some) && AllWellSized(others) && WrittenToo(some, others) && a in some && InsertsKey(a, k)
    ensures m in others && InsertsKey(m, k) && SameMessage(a, m)
  {
    m :| m in others && SameMessage(a, m) && Inserts(m).Some?;
    SameKeys(a, m, k);
  }

  /** The keys of the table are those that some message inserts. */
  lemma KeysAreInserted(ms: seq<Message>, k: RowKey)
    requires AllWellSized(ms)
    ensures k in Run(ms).events <==> exists m :: m in ms && InsertsKey(m, k)
  {
    hide Run, InsertsKey;
    FirstArrivalWins(ms, k);
    FirstInsertedFrom(ms, k);
  }

  lemma WrittenKeys(some: seq<Message>, others: seq<Message>, k: RowKey)
    requires AllWellSized(some) && AllWellSized(others) && WrittenToo(some, others)
    ensures k in Run(some).events ==> k in Run(others).events
  {
    hide Run, Inserts, InsertsKey, WrittenToo, SameMessage;
    KeysAreInserted(some, k);
    KeysAreInserted(others, k);
    if a :| a in some && InsertsKey(a, k) {
      var m := WrittenKey(some, others, k, a);
    }
  }

  /** Every message for this key carries this envelope. */
  ghost predicate OneEnvelope(ms: seq<Message>, k: RowKey, env: Envelope)
    requires AllWellSized(ms)
  {
    forall m :: m in ms && InsertsKey(m, k) ==> m.decoded == Some(env)
  }

  /** The row was made by a message carrying this envelope. */
  lemma RowCarries(ms: seq<Message>, k: RowKey, env: Envelope) returns (m: Message)
    requires AllWellSized(ms) && OneEnvelope(ms, k, env) && k in Run(ms).events
    ensures m in ms && WellSized(m) && InsertsKey(m, k) && m.decoded == Some(env) && Inserts(m) == Some(Run(ms).events[k])
  {
    hide Run, Inserts, InsertsKey;
    Attributed(ms, k);
    m :| m in ms && InsertsKey(m, k) && Inserts(m) == Some(Run(ms).events[k]);
  }

  lemma OneEnvelopeAgain(ms: seq<Message>, again: seq<Message>, k: RowKey, env: Envelope)
    requires AllWellSized(ms) && AllWellSized(again) && WrittenToo(again, ms) && OneEnvelope(ms, k, env)
    ensures OneEnvelope(again, k, env)
  {
    hide InsertsKey, WrittenToo;
    forall a | a in again && InsertsKey(a, k) ensures a.decoded == Some(env) {
      var m := WrittenKey(again, ms, k, a);
    }
  }

  /** Duplicating, losing or reordering deliveries, each handled at whatever time
      it then arrives and failing wherever the database then fails, changes no
      row's key as long as each message that was written still is; and where the
      messages for a key carry one envelope, it changes nothing in the row but
      the time of receipt. */
  lemma ReplayHarmless(ms: seq<Message>, again: seq<Message>, k: RowKey, env: Envelope)
    requires AllWellSized(ms) && AllWellSized(again) && WrittenToo(again, ms) && WrittenToo(ms, again)
    ensures k in Run(again).events <==> k in Run(ms).events
    ensures k in Run(ms).events && OneEnvelope(ms, k, env) ==>
      Run(again).events[k] == ReceivedWith(Run(ms).events[k], env, Run(again).events[k])
  {
    hide Run, Inserts, InsertsKey, WrittenToo, OneEnvelope, ReceivedWith;
    WrittenKeys(ms, again, k);
    WrittenKeys(again, ms, k);
    if k in Run(ms).events && OneEnvelope(ms, k, env) {
      OneEnvelopeAgain(ms, again, k, env);
      var m := RowCarries(ms, k, env);
      var a := RowCarries(again, k, env);
      SameInserts(m, a, k);
    }
  }

  lemma HandledSessions(c: Collector, m: Message)
    requires WellSized(m)
    ensures c.sessions.Keys <= Handled(c, m).sessions.Keys
    ensures Inserts(m).Some? && Inserts(m).value.sessionId != [] ==> Inserts(m).value.sessionId in Handled(c, m).sessions
  {
    hide NodeFromSubject, Normalize, KeyOf, Verdict, Track, Lookup, PutSucceeds, Accept;
  }

  /** Every event row that names a session has its session row. */
  lemma {:induction false} SessionsPresent(ms: seq<Message>)
    requires AllWellSized(ms)
    ensures forall k :: k in Run(ms).events && Run(ms).events[k].sessionId != [] ==>
      Run(ms).events[k].sessionId in Run(ms).sessions
  {
    if ms != [] {
      var init, m := ms[..|ms| - 1], ms[|ms| - 1];
      SessionsPresent(init);
      var c, d := Run(init), Run(ms);
      assert d == Handled(c, m);
      HandledSessions(c, m);
      forall k | k in d.events && d.events[k].sessionId != [] ensures d.events[k].sessionId in d.sessions {
        HandledRow(c, m, k);
      }
    }
  }

  // ----- Tables and counters as functions of what arrived.

  /** The event a message upserts a session row with. */
  function Upserts(m: Message): Option<Event> {
    var accepted := Accept(m);
    if accepted.Some? && SessionWritten(accepted.value, m.fault) then accepted else None
  }

  /** What arrived for one session, in order of arrival. */
  function SessionLog(ms: seq<Message>, sid: string): seq<Event> {
    if ms == [] then [] else
      var u := Upserts(ms[|ms| - 1]);
      SessionLog(ms[..|ms| - 1], sid) + if u.Some? && u.value.sessionId == sid then [u.value] else []
  }

  function RowOf(c: Collector, sid: string): Option<SessionRow> {
    if sid in c.sessions then Some(c.sessions[sid]) else None
  }

  lemma HandledSession(c: Collector, m: Message, sid: string)
    requires WellSized(m)
    ensures var u := Upserts(m);
            RowOf(Handled(c, m), sid) ==
              if u.Some? && u.value.sessionId == sid then Some(Upsert(RowOf(c, sid), u.value)) else RowOf(c, sid)
  {
    hide NodeFromSubject, Normalize, KeyOf, Verdict, Track, Lookup, PutSucceeds, Accept, Upsert, EventWritten;
  }

  lemma RowAfterSnoc(es: seq<Event>, e: Event)
    ensures RowAfter(es + [e]) == Some(Upsert(RowAfter(es), e))
  {
    assert (es + [e])[..|es|] == es;
  }

  /** Every session row is what the upserts of its session make it. */
  lemma {:induction false} SessionsAreRows(ms: seq<Message>, sid: string)
    requires AllWellSized(ms)
    ensures RowOf(Run(ms), sid) == RowAfter(SessionLog(ms, sid))
  {
    hide Handled, Upserts, Upsert, RowOf;
    if ms == [] {
      NoRows(sid);
    } else {
      var init, m := ms[..|ms| - 1], ms[|ms| - 1];
      SessionsAreRows(init, sid);
      HandledSession(Run(init), m, sid);
      if Upserts(m).Some? && Upserts(m).value.sessionId == sid {
        RowAfterSnoc(SessionLog(init, sid), Upserts(m).value);
      } else {
        assert SessionLog(ms, sid) == SessionLog(init, sid);
      }
    }
  }

  lemma NoRows(sid: string)
    ensures RowOf(EMPTY, sid) == None
  {
  }

  /** The numbers that passed the gates, with their nodes, in order of arrival. */
  function Numbers(ms: seq<Message>): seq<(string, U64Value)>
    requires AllWellSized(ms)
  {
    if ms == [] then [] else
      var e := Accept(ms[|ms| - 1]);
      assert WellSized(ms[|ms| - 1]);
      Numbers(ms[..|ms| - 1]) + if e.Some? then [(e.value.nodeId, e.value.seqNo)] else []
  }

  lemma HandledNumbers(c: Collector, m: Message)
    requires WellSized(m)
    ensures var e, d := Accept(m), Handled(c, m);
            if e.None? then d.last == c.last && d.stats.gaps == c.stats.gaps && d.stats.missingEvents == c.stats.missingEvents
            else
              var v := Verdict(Lookup(c.last, e.value.nodeId), e.value.seqNo);
              && d.last == Track(c.last, e.value.nodeId, e.value.seqNo)
              && d.stats.gaps == c.stats.gaps + (if v.Gap? then 1 else 0)
              && d.stats.missingEvents == c.stats.missingEvents + if v.Gap? then v.missing else 0
  {
    hide NodeFromSubject, Normalize, SessionUpserted, KeyOf, Verdict, Track, Lookup, PutSucceeds, SessionWritten, EventWritten, Accept;
  }

  lemma LogSnoc(log: seq<(string, U64Value)>, node: string, n: U64Value)
    ensures var v := Verdict(Lookup(TrackLog(log), node), n);
            var all := log + [(node, n)];
            && TrackLog(all) == Track(TrackLog(log), node, n)
            && LogGaps(all) == LogGaps(log) + (if v.Gap? then 1 else 0)
            && LogMissing(all) == LogMissing(log) + if v.Gap? then v.missing else 0
  {
    hide Verdict, Track, Lookup;
    assert (log + [(node, n)])[..|log|] == log;
  }

  lemma {:induction false} CountersFollowLog(ms: seq<Message>)
    requires AllWellSized(ms)
    ensures Run(ms).last == TrackLog(Numbers(ms))
    ensures Run(ms).stats.gaps == LogGaps(Numbers(ms)) && Run(ms).stats.missingEvents == LogMissing(Numbers(ms))
  {
    hide Handled, Accept, Verdict, Track, Lookup;
    if ms != [] {
      var init, m := ms[..|ms| - 1], ms[|ms| - 1];
      CountersFollowLog(init);
      HandledNumbers(Run(init), m);
      var e := Accept(m);
      if e.Some? {
        LogSnoc(Numbers(init), e.value.nodeId, e.value.seqNo);
      } else {
        assert Numbers(ms) == Numbers(init);
      }
    }
  }

  /** The gap counters are the sums, over all nodes, of what each node's accepted
      numbers account for. */
  lemma GapsAreSums(ms: seq<Message>, nodes: set<string>)
    requires AllWellSized(ms) && forall o :: o in Numbers(ms) ==> o.0 in nodes
    ensures Run(ms).stats.gaps == Sum(nodes, n => GapCount(Project(Numbers(ms), n)))
    ensures Run(ms).stats.missingEvents == Sum(nodes, n => TotalMissing(Project(Numbers(ms), n)))
  {
    hide Run, Numbers;
    CountersFollowLog(ms);
    LogTotals(Numbers(ms), nodes);
  }
}
