/** The live index against the plain history of what was fed to it. */
module IndexHistory {
  import opened Basics
  import opened Events
  import opened LiveIndexes

  datatype Op = Ingest(e: Event) | Profile(assignments: map<string, Assignment>)

  function Apply(ix: Index, op: Op, geo: Geo): Index {
    match op
    case Ingest(e) => Ingested(ix, e, geo)
    case Profile(a) => Profiled(ix, a)
  }

  /** The index after a history of calls. */
  function Run(h: seq<Op>, geo: Geo): Index {
    if h == [] then EMPTY else Apply(Run(h[..|h| - 1], geo), h[|h| - 1], geo)
  }

  // ----- What the history alone determines.

  /** The session ids in the order views were created for them, repeats included. */
  function Created(h: seq<Op>): seq<string> {
    if h == [] then [] else
      var before, op := Created(h[..|h| - 1]), h[|h| - 1];
      if op.Ingest? && op.e.sessionId != "" && op.e.sessionId !in Suffix(before, MAX_SESSIONS)
      then before + [op.e.sessionId] else before
  }

  function Retained(h: seq<Op>): seq<string> {
    Suffix(Created(h), MAX_SESSIONS)
  }

  predicate Concerns(op: Op, sid: string) {
    if op.Ingest? then op.e.sessionId == sid else sid in op.assignments
  }

  /** What concerns a session since its view was last created. */
  function Since(h: seq<Op>, sid: string): seq<Op> {
    if h == [] then [] else
      var init, op := h[..|h| - 1], h[|h| - 1];
      if Concerns(op, sid) && sid in Retained(init) then Since(init, sid) + [op]
      else if Concerns(op, sid) && op.Ingest? then [op]
      else Since(init, sid)
  }

  /** A creating event followed by what else concerns the session. */
  predicate IsSessionLog(ops: seq<Op>, sid: string) {
    ops != [] && ops[0].Ingest? && forall i :: 0 <= i < |ops| && ops[i].Profile? ==> sid in ops[i].assignments
  }

  /** The view a session log folds to. */
  function ViewOf(ops: seq<Op>, sid: string, geo: Geo): SessionView
    requires IsSessionLog(ops, sid)
  {
    var op := ops[|ops| - 1];
    if |ops| == 1 then Folded(NewView(op.e), op.e, geo)
    else
      var v := ViewOf(ops[..|ops| - 1], sid, geo);
      match op
      case Ingest(e) => Folded(v, e, geo)
      case Profile(a) => v.(profile := Some(a[sid]))
  }

  function EventsIn(ops: seq<Op>): seq<Event> {
    if ops == [] then []
    else EventsIn(ops[..|ops| - 1]) + if ops[|ops| - 1].Ingest? then [ops[|ops| - 1].e] else []
  }

  function SessionEvents(h: seq<Op>): seq<Event> {
    if h == [] then [] else
      SessionEvents(h[..|h| - 1]) + if h[|h| - 1].Ingest? && h[|h| - 1].e.sessionId != "" then [h[|h| - 1].e] else []
  }

  // ----- Suffixes and prefixes.

  lemma SuffixSnoc<T>(s: seq<T>, x: T, n: nat)
    requires n > 0
    ensures Suffix(s + [x], n) == Suffix(Suffix(s, n) + [x], n)
    ensures Suffix(s + [x], n) == if |Suffix(s, n)| < n then Suffix(s, n) + [x] else Suffix(s, n)[1..] + [x]
  {
  }

  lemma PrefixSnoc<T>(s: seq<T>, x: T, n: nat)
    ensures Prefix(s + [x], n) == if |Prefix(s, n)| < n then Prefix(s, n) + [x] else Prefix(s, n)
  {
  }

  lemma TrimmedOne(c: Cache)
    requires |c.order| <= MAX_SESSIONS + 1
    ensures Trimmed(c) == if |c.order| <= MAX_SESSIONS then c
                          else Cache(c.sessions - {c.order[0]}, c.order[1..], c.events - {c.order[0]})
  {
  }

  // ----- The cache.

  /** One session's view and bucket are what its log folds to. */
  ghost predicate SessionRefines(c: Cache, h: seq<Op>, geo: Geo, sid: string) {
    && sid in c.sessions && sid in c.events
    && IsSessionLog(Since(h, sid), sid)
    && c.sessions[sid] == ViewOf(Since(h, sid), sid, geo)
    && c.events[sid] == Prefix(EventsIn(Since(h, sid)), MAX_EVENTS_PER_SESSION)
  }

  ghost predicate CacheRefines(c: Cache, h: seq<Op>, geo: Geo) {
    && c.order == Retained(h) && Distinct(c.order)
    && c.sessions.Keys == Elements(c.order) == c.events.Keys
    && (forall sid :: sid in c.order ==> SessionRefines(c, h, geo, sid))
  }

  lemma HistorySnoc(h: seq<Op>, op: Op)
    ensures (h + [op])[..|h|] == h
  {
  }

  lemma CreatedSnoc(h: seq<Op>, op: Op)
    ensures Created(h + [op]) ==
      if op.Ingest? && op.e.sessionId != "" && op.e.sessionId !in Retained(h) then Created(h) + [op.e.sessionId] else Created(h)
  {
    HistorySnoc(h, op);
  }

  lemma SinceSnoc(h: seq<Op>, op: Op, sid: string)
    ensures Since(h + [op], sid) ==
      if Concerns(op, sid) && sid in Retained(h) then Since(h, sid) + [op]
      else if Concerns(op, sid) && op.Ingest? then [op]
      else Since(h, sid)
  {
    HistorySnoc(h, op);
  }

  lemma ViewOfSnoc(ops: seq<Op>, op: Op, sid: string, geo: Geo)
    requires IsSessionLog(ops, sid) && (op.Profile? ==> sid in op.assignments)
    ensures IsSessionLog(ops + [op], sid)
    ensures ViewOf(ops + [op], sid, geo) ==
      if op.Ingest? then Folded(ViewOf(ops, sid, geo), op.e, geo)
      else ViewOf(ops, sid, geo).(profile := Some(op.assignments[sid]))
    ensures EventsIn(ops + [op]) == EventsIn(ops) + if op.Ingest? then [op.e] else []
  {
    hide Folded;
    assert (ops + [op])[..|ops|] == ops;
  }

  lemma ViewOfOne(op: Op, sid: string, geo: Geo)
    requires op.Ingest?
    ensures IsSessionLog([op], sid) && ViewOf([op], sid, geo) == Folded(NewView(op.e), op.e, geo)
    ensures EventsIn([op]) == [op.e]
  {
    assert [op][..0] == [];
  }

  /** An operation that does not concern a session leaves it as it was. */
  lemma SessionKept(c: Cache, d: Cache, h: seq<Op>, op: Op, geo: Geo, sid: string)
    requires SessionRefines(c, h, geo, sid) && !Concerns(op, sid)
    requires sid in d.sessions && sid in d.events && d.sessions[sid] == c.sessions[sid] && d.events[sid] == c.events[sid]
    ensures SessionRefines(d, h + [op], geo, sid)
  {
    hide Since, ViewOf, EventsIn, IsSessionLog, Prefix;
    SinceSnoc(h, op, sid);
  }

  /** An event of a session that is held folds into its view and its bucket. */
  lemma SessionGrown(c: Cache, d: Cache, h: seq<Op>, geo: Geo, e: Event)
    requires e.sessionId in Retained(h) && SessionRefines(c, h, geo, e.sessionId)
    requires e.sessionId in d.sessions && e.sessionId in d.events
    requires d.sessions[e.sessionId] == Folded(c.sessions[e.sessionId], e, geo)
    requires var was := c.events[e.sessionId];
             d.events[e.sessionId] == if |was| < MAX_EVENTS_PER_SESSION then was + [e] else was
    ensures SessionRefines(d, h + [Ingest(e)], geo, e.sessionId)
  {
    hide Since, ViewOf, EventsIn, Folded, IsSessionLog, Prefix, Retained;
    var sid := e.sessionId;
    SinceSnoc(h, Ingest(e), sid);
    ViewOfSnoc(Since(h, sid), Ingest(e), sid, geo);
    PrefixSnoc(EventsIn(Since(h, sid)), e, MAX_EVENTS_PER_SESSION);
  }

  /** Recording an event of a session that is held touches that session only. */
  lemma RecordedHeld(c: Cache, e: Event, geo: Geo)
    requires e.sessionId in c.sessions && e.sessionId in c.events
    ensures var id, d := e.sessionId, Recorded(Admitted(c, e), e, geo);
            && d.order == c.order && d.sessions.Keys == c.sessions.Keys && d.events.Keys == c.events.Keys
            && d.sessions[id] == Folded(c.sessions[id], e, geo)
            && d.events[id] == (if |c.events[id]| < MAX_EVENTS_PER_SESSION then c.events[id] + [e] else c.events[id])
            && (forall sid :: sid in c.sessions && sid != id ==> d.sessions[sid] == c.sessions[sid])
            && (forall sid :: sid in c.events && sid != id ==> d.events[sid] == c.events[sid])
  {
    hide Folded, Trimmed, NewView;
  }

  /** An event of a session the cache holds. */
  lemma IngestKnown(c: Cache, h: seq<Op>, geo: Geo, e: Event)
    requires CacheRefines(c, h, geo) && e.sessionId != "" && e.sessionId in c.order
    ensures CacheRefines(Recorded(Admitted(c, e), e, geo), h + [Ingest(e)], geo)
  {
    hide Created, Folded, Recorded, Admitted, SessionRefines, Distinct;
    var op, id := Ingest(e), e.sessionId;
    var d := Recorded(Admitted(c, e), e, geo);
    CreatedSnoc(h, op);
    HeldHasBoth(c, h, geo, id);
    RecordedHeld(c, e, geo);
    forall sid | sid in d.order ensures SessionRefines(d, h + [op], geo, sid) {
      if sid == id {
        SessionGrown(c, d, h, geo, e);
      } else {
        SessionKept(c, d, h, op, geo, sid);
      }
    }
  }

  lemma HeldHasBoth(c: Cache, h: seq<Op>, geo: Geo, id: string)
    requires SessionRefines(c, h, geo, id)
    ensures id in c.sessions && id in c.events
  {
  }

  ghost predicate KeysMatch(c: Cache) {
    Distinct(c.order) && c.sessions.Keys == Elements(c.order) == c.events.Keys
  }

  /** `d` holds a new view for `id`, and otherwise only what `c` held. */
  ghost predicate Newcomer(c: Cache, d: Cache, id: string, v: SessionView) {
    && Distinct(d.order) && id in d.order
    && d.sessions.Keys == Elements(d.order) && d.events.Keys == Elements(d.order) - {id}
    && d.sessions[id] == v
    && (forall sid :: sid in d.order && sid != id ==>
          sid in c.order && sid in c.sessions && sid in c.events
          && d.sessions[sid] == c.sessions[sid] && d.events[sid] == c.events[sid])
  }

  lemma AdmitWithRoom(c: Cache, id: string, v: SessionView)
    requires KeysMatch(c) && id !in c.order
    ensures Newcomer(c, Grown(c, id, v), id, v)
  {
    assert Elements(c.order + [id]) == Elements(c.order) + {id};
  }

  lemma DropFirst(c: Cache, d: Cache, id: string, v: SessionView)
    requires Newcomer(c, d, id, v) && d.order[0] != id
    ensures Newcomer(c, Cache(d.sessions - {d.order[0]}, d.order[1..], d.events - {d.order[0]}), id, v)
  {
    hide Distinct;
    TailOfDistinct(d.order);
  }

  lemma TailOfDistinct(order: seq<string>)
    requires Distinct(order) && order != []
    ensures Distinct(order[1..]) && Elements(order[1..]) == Elements(order) - {order[0]}
    ensures forall sid :: sid in order[1..] <==> sid in order && sid != order[0]
  {
    assert order == [order[0]] + order[1..];
    assert order[0] !in order[1..];
  }

  /** The cache just after a view was created for a session it did not hold. */
  lemma AdmittedNew(c: Cache, h: seq<Op>, geo: Geo, e: Event)
    requires CacheRefines(c, h, geo) && e.sessionId != "" && e.sessionId !in c.order
    ensures Admitted(c, e).order == Retained(h + [Ingest(e)])
    ensures Newcomer(c, Admitted(c, e), e.sessionId, NewView(e))
  {
    hide Created, NewView, SessionRefines, Trimmed, Newcomer, Admitted, Distinct, Suffix;
    var id, v := e.sessionId, NewView(e);
    CreatedSnoc(h, Ingest(e));
    SuffixSnoc(Created(h), id, MAX_SESSIONS);
    SuffixFits(Created(h));
    AdmittedIs(c, e);
    AdmitWithRoom(c, id, v);
    if |c.order| == MAX_SESSIONS {
      TailSnoc(c.order, id);
      DropFirst(c, Grown(c, id, v), id, v);
    }
  }

  /** The cache with one more session at the end. */
  function Grown(c: Cache, id: string, v: SessionView): Cache {
    c.(sessions := c.sessions[id := v], order := c.order + [id])
  }

  lemma AdmittedIs(c: Cache, e: Event)
    requires |c.order| <= MAX_SESSIONS && e.sessionId !in c.sessions
    ensures var d := Grown(c, e.sessionId, NewView(e));
            Admitted(c, e) == if |c.order| < MAX_SESSIONS then d
                              else Cache(d.sessions - {d.order[0]}, d.order[1..], d.events - {d.order[0]})
  {
    hide NewView, Trimmed;
    TrimmedOne(Grown(c, e.sessionId, NewView(e)));
  }

  lemma SuffixFits(order: seq<string>)
    ensures |Suffix(order, MAX_SESSIONS)| <= MAX_SESSIONS
  {
  }

  lemma TailSnoc(order: seq<string>, id: string)
    requires order != []
    ensures (order + [id])[0] == order[0] && (order + [id])[1..] == order[1..] + [id] && order[0] in order
  {
  }

  /** Recording a newcomer's first event. */
  lemma RecordedNew(c: Cache, a: Cache, geo: Geo, e: Event)
    requires Newcomer(c, a, e.sessionId, NewView(e))
    ensures var d, id := Recorded(a, e, geo), e.sessionId;
            && d.order == a.order && Distinct(d.order) && d.sessions.Keys == Elements(d.order) == d.events.Keys
            && id in d.sessions && id in d.events && d.sessions[id] == Folded(NewView(e), e, geo) && d.events[id] == [e]
            && (forall sid :: sid in d.order && sid != id ==>
                  sid in c.order && sid in c.sessions && sid in c.events && sid in d.sessions && sid in d.events
                  && d.sessions[sid] == c.sessions[sid] && d.events[sid] == c.events[sid])
  {
    hide Folded, NewView, Distinct;
    assert [] + [e] == [e];
  }

  /** An event of a session the cache does not hold. */
  lemma IngestNew(c: Cache, h: seq<Op>, geo: Geo, e: Event)
    requires CacheRefines(c, h, geo) && e.sessionId != "" && e.sessionId !in c.order
    ensures CacheRefines(Recorded(Admitted(c, e), e, geo), h + [Ingest(e)], geo)
  {
    hide Created, Folded, Admitted, NewView, Distinct, Retained, SessionRefines, Recorded, Newcomer;
    var op, id := Ingest(e), e.sessionId;
    AdmittedNew(c, h, geo, e);
    RecordedNew(c, Admitted(c, e), geo, e);
    var d := Recorded(Admitted(c, e), e, geo);
    forall sid | sid in d.order ensures SessionRefines(d, h + [op], geo, sid) {
      if sid == id {
        SessionBegun(d, h, geo, e);
      } else {
        SessionKept(c, d, h, op, geo, sid);
      }
    }
  }

  /** The first event of a session that is not held makes its view and its bucket. */
  lemma SessionBegun(d: Cache, h: seq<Op>, geo: Geo, e: Event)
    requires e.sessionId !in Retained(h) && e.sessionId in d.sessions && e.sessionId in d.events
    requires d.sessions[e.sessionId] == Folded(NewView(e), e, geo) && d.events[e.sessionId] == [e]
    ensures SessionRefines(d, h + [Ingest(e)], geo, e.sessionId)
  {
    hide Since, ViewOf, EventsIn, Folded, IsSessionLog, Retained;
    SinceSnoc(h, Ingest(e), e.sessionId);
    ViewOfOne(Ingest(e), e.sessionId, geo);
  }

  /** A profile touches views only. */
  lemma ProfileKeeps(ix: Index, h: seq<Op>, geo: Geo, a: map<string, Assignment>)
    requires CacheRefines(ix.cache, h, geo)
    ensures CacheRefines(Profiled(ix, a).cache, h + [Profile(a)], geo)
  {
    hide Created, Since, ViewOf, EventsIn, IsSessionLog, Distinct;
    var op, c, d := Profile(a), ix.cache, Profiled(ix, a).cache;
    CreatedSnoc(h, op);
    assert d.sessions.Keys == c.sessions.Keys;
    forall sid | sid in d.order ensures SessionRefines(d, h + [op], geo, sid) {
      assert SessionRefines(c, h, geo, sid);
      SinceSnoc(h, op, sid);
      if sid in a {
        ViewOfSnoc(Since(h, sid), op, sid, geo);
        assert EventsIn(Since(h, sid)) + [] == EventsIn(Since(h, sid));
      }
    }
  }

  /** Node-level events leave the cache alone. */
  lemma NodeLevelKeeps(c: Cache, h: seq<Op>, geo: Geo, e: Event)
    requires CacheRefines(c, h, geo) && e.sessionId == ""
    ensures CacheRefines(c, h + [Ingest(e)], geo)
  {
    hide Created, Since, ViewOf, EventsIn, IsSessionLog, Distinct;
    CreatedSnoc(h, Ingest(e));
    forall sid | sid in c.order ensures SessionRefines(c, h + [Ingest(e)], geo, sid) {
      assert SessionRefines(c, h, geo, sid);
      SinceSnoc(h, Ingest(e), sid);
      RetainedNonEmpty(h, sid);
    }
  }

  lemma {:induction false} CreatedNonEmpty(h: seq<Op>)
    ensures "" !in Created(h)
  {
    if h != [] {
      CreatedNonEmpty(h[..|h| - 1]);
    }
  }

  lemma RetainedNonEmpty(h: seq<Op>, sid: string)
    requires sid in Retained(h)
    ensures sid != ""
  {
    CreatedNonEmpty(h);
  }

  lemma EmptyAgrees(geo: Geo)
    ensures CacheRefines(EMPTY.cache, [], geo)
  {
    assert Retained([]) == [] && Elements<string>([]) == {};
  }

  /** The cache refines the history, after every call. */
  lemma {:induction false} CacheAgrees(h: seq<Op>, geo: Geo)
    ensures CacheRefines(Run(h, geo).cache, h, geo)
  {
    hide CacheRefines, Recorded, Admitted, Profiled, Counted, Suffix;
    if h == [] {
      EmptyAgrees(geo);
    } else {
      var init, op := h[..|h| - 1], h[|h| - 1];
      var ix := Run(init, geo);
      CacheAgrees(init, geo);
      assert h == init + [op];
      match op
      case Profile(a) => ProfileKeeps(ix, init, geo, a);
      case Ingest(e) =>
        if e.sessionId == "" {
          NodeLevelKeeps(ix.cache, init, geo, e);
        } else if e.sessionId in ix.cache.order {
          IngestKnown(ix.cache, init, geo, e);
        } else {
          IngestNew(ix.cache, init, geo, e);
        }
    }
  }

  // ----- The ring and the totals.

  lemma {:induction false} RecentAgrees(h: seq<Op>, geo: Geo)
    ensures Run(h, geo).recent == Suffix(SessionEvents(h), MAX_RECENT)
    ensures Run(h, geo).totalEvents == |EventsIn(h)|
  {
    hide Recorded, Admitted, Counted;
    if h != [] {
      var init, op := h[..|h| - 1], h[|h| - 1];
      RecentAgrees(init, geo);
      if op.Ingest? && op.e.sessionId != "" {
        SuffixSnoc(SessionEvents(init), op.e, MAX_RECENT);
      } else {
        assert SessionEvents(h) == SessionEvents(init);
      }
    }
  }

  predicate IsCommand(e: Event) { e.payload.Command? }

  predicate IsAuth(e: Event) { e.payload.Auth? }

  predicate IsArtifact(e: Event) { e.payload.Artifact? }

  predicate IsCanary(e: Event) { e.payload.Canary? }

  predicate IsHttpRequest(e: Event) { e.payload.HttpRequest? }

  function Count(es: seq<Event>, p: Event -> bool): nat {
    if es == [] then 0 else Count(es[..|es| - 1], p) + if p(es[|es| - 1]) then 1 else 0
  }

  function KeysOf(es: seq<Event>, keys: Event -> seq<string>): seq<string> {
    if es == [] then [] else KeysOf(es[..|es| - 1], keys) + keys(es[|es| - 1])
  }

  /** A count map counts the occurrences of every key. */
  ghost predicate Tallies(counts: map<string, nat>, keys: seq<string>) {
    forall k :: (k in counts <==> k in keys) && (k in counts ==> counts[k] == multiset(keys)[k])
  }

  lemma {:induction false} BumpAllTallies(counts: map<string, nat>, keys: seq<string>, more: seq<string>)
    requires Tallies(counts, keys)
    ensures Tallies(BumpAll(counts, more), keys + more)
    decreases |more|
  {
    if more == [] {
      assert keys + more == keys;
    } else {
      var init, k := more[..|more| - 1], more[|more| - 1];
      BumpAllTallies(counts, keys, init);
      assert keys + more == (keys + init) + [k];
      BumpTallies(BumpAll(counts, init), keys + init, k);
    }
  }

  lemma BumpTallies(counts: map<string, nat>, keys: seq<string>, k: string)
    requires Tallies(counts, keys)
    ensures Tallies(Bump(counts, k), keys + [k])
  {
    assert multiset(keys + [k]) == multiset(keys) + multiset{k};
    assert k !in keys ==> multiset(keys)[k] == 0;
    forall x ensures x in keys + [k] <==> x in keys || x == k {}
  }

  /** Every total is the count of its kind over all session events ever ingested,
      evicted sessions included. */
  ghost predicate TotalsOf(t: Totals, es: seq<Event>) {
    && t.commands == Count(es, IsCommand)
    && t.credentials == Count(es, IsAuth)
    && t.artifacts == Count(es, IsArtifact)
    && t.canaryHits == Count(es, IsCanary)
    && Tallies(t.credentialCounts, KeysOf(es, CredentialKeys))
    && Tallies(t.sourceCounts, KeysOf(es, SourceKeys))
    && Tallies(t.attackCounts, KeysOf(es, AttackKeys))
    && Tallies(t.protocolCounts, KeysOf(es, ProtocolKeys))
  }

  lemma CountSnoc(es: seq<Event>, e: Event, p: Event -> bool)
    ensures Count(es + [e], p) == Count(es, p) + if p(e) then 1 else 0
  {
    assert (es + [e])[..|es|] == es;
  }

  lemma KeysOfSnoc(es: seq<Event>, e: Event, keys: Event -> seq<string>)
    ensures KeysOf(es + [e], keys) == KeysOf(es, keys) + keys(e)
  {
    assert (es + [e])[..|es|] == es;
  }

  lemma CountedKeeps(t: Totals, es: seq<Event>, e: Event)
    requires TotalsOf(t, es)
    ensures TotalsOf(Counted(t, e), es + [e])
  {
    hide Count, KeysOf, BumpAll, Tallies;
    CountSnoc(es, e, IsCommand);
    CountSnoc(es, e, IsAuth);
    CountSnoc(es, e, IsArtifact);
    CountSnoc(es, e, IsCanary);
    KeysOfSnoc(es, e, CredentialKeys);
    KeysOfSnoc(es, e, SourceKeys);
    KeysOfSnoc(es, e, AttackKeys);
    KeysOfSnoc(es, e, ProtocolKeys);
    BumpAllTallies(t.credentialCounts, KeysOf(es, CredentialKeys), CredentialKeys(e));
    BumpAllTallies(t.sourceCounts, KeysOf(es, SourceKeys), SourceKeys(e));
    BumpAllTallies(t.attackCounts, KeysOf(es, AttackKeys), AttackKeys(e));
    BumpAllTallies(t.protocolCounts, KeysOf(es, ProtocolKeys), ProtocolKeys(e));
  }

  lemma {:induction false} TotalsAgree(h: seq<Op>, geo: Geo)
    ensures TotalsOf(Run(h, geo).totals, SessionEvents(h))
  {
    hide Recorded, Admitted, Counted, TotalsOf;
    if h == [] {
      NoTotals();
    } else {
      var init, op := h[..|h| - 1], h[|h| - 1];
      TotalsAgree(init, geo);
      if op.Ingest? && op.e.sessionId != "" {
        CountedKeeps(Run(init, geo).totals, SessionEvents(init), op.e);
      } else {
        assert SessionEvents(h) == SessionEvents(init);
      }
    }
  }

  lemma NoTotals()
    ensures TotalsOf(EMPTY.totals, [])
  {
  }

  // ----- The fleet's health.

  /** A heartbeat outside any session. */
  predicate IsBeat(e: Event) {
    e.sessionId == "" && e.payload.Heartbeat?
  }

  /** What the index heard of a sensor: its heartbeats, and its session events
      since the first of them. */
  function Heard(h: seq<Op>, node: string): seq<Event> {
    if h == [] then [] else
      var before, op := Heard(h[..|h| - 1], node), h[|h| - 1];
      if op.Ingest? && op.e.nodeId == node && (IsBeat(op.e) || (op.e.sessionId != "" && before != []))
      then before + [op.e] else before
  }

  function LastBeat(es: seq<Event>): Option<HeartbeatInfo> {
    if es == [] then None
    else if IsBeat(es[|es| - 1]) then Some(es[|es| - 1].payload.health) else LastBeat(es[..|es| - 1])
  }

  predicate InSession(e: Event) { e.sessionId != "" }

  /** A sensor is known once it has sent a heartbeat; its health is the last one,
      its count that of its session events since the first, and it was seen when
      the last of either arrived. */
  ghost predicate HealthOf(nodes: map<string, NodeHealth>, node: string, es: seq<Event>) {
    && (node in nodes <==> es != [])
    && (es != [] ==>
          && LastBeat(es) == Some(nodes[node].health)
          && nodes[node].lastSeen == es[|es| - 1].tsCollector
          && nodes[node].events == Count(es, InSession))
  }

  lemma HealthSnoc(nodes: map<string, NodeHealth>, node: string, es: seq<Event>, e: Event)
    requires HealthOf(nodes, node, es)
    ensures HealthOf(Seen(nodes, e), node,
      if e.nodeId == node && (IsBeat(e) || (e.sessionId != "" && es != [])) then es + [e] else es)
  {
    CountSnoc(es, e, InSession);
    assert (es + [e])[..|es|] == es;
    assert Count([], InSession) == 0;
  }

  lemma {:induction false} HealthAgrees(h: seq<Op>, geo: Geo, node: string)
    ensures HealthOf(Run(h, geo).nodes, node, Heard(h, node))
  {
    hide Recorded, Admitted, Counted, Seen, HealthOf, Heard;
    if h == [] {
      NothingHeard(node);
    } else {
      var init, op := h[..|h| - 1], h[|h| - 1];
      HealthAgrees(init, geo, node);
      HeardSnoc(init, op, node);
      assert h == init + [op];
      if op.Ingest? {
        HealthSnoc(Run(init, geo).nodes, node, Heard(init, node), op.e);
      }
    }
  }

  lemma NothingHeard(node: string)
    ensures HealthOf(EMPTY.nodes, node, Heard([], node))
  {
  }

  lemma HeardSnoc(init: seq<Op>, op: Op, node: string)
    ensures var before := Heard(init, node);
            Heard(init + [op], node) ==
              if op.Ingest? && op.e.nodeId == node && (IsBeat(op.e) || (op.e.sessionId != "" && before != []))
              then before + [op.e] else before
  {
    HistorySnoc(init, op);
  }

  // ----- What a view says about its session.

  lemma {:induction false} AddAllNewMembers(list: seq<string>, xs: seq<string>)
    requires Distinct(list)
    ensures Distinct(AddAllNew(list, xs))
    ensures forall x :: x in AddAllNew(list, xs) <==> x in list || x in xs
    decreases |xs|
  {
    if xs != [] {
      AddAllNewMembers(list, xs[..|xs| - 1]);
      assert xs == xs[..|xs| - 1] + [xs[|xs| - 1]];
    }
  }

  function UrlKeys(e: Event): seq<string> {
    if e.payload.Artifact? then [e.payload.url] else []
  }

  /** A view's counters count its session's events, and its lists hold each URL
      and each attack class that occurred, once. */
  ghost predicate ViewCounts(v: SessionView, es: seq<Event>) {
    && v.commandCount == Count(es, IsCommand)
    && v.authCount == Count(es, IsAuth)
    && v.artifactCount == Count(es, IsArtifact)
    && v.httpRequestCount == Count(es, IsHttpRequest)
    && Distinct(v.artifactUrls) && (forall x :: x in v.artifactUrls <==> x in KeysOf(es, UrlKeys))
    && Distinct(v.detectedAttacks) && (forall x :: x in v.detectedAttacks <==> x in KeysOf(es, AttackKeys))
  }

  lemma FoldedCounts(v: SessionView, es: seq<Event>, e: Event, geo: Geo)
    requires ViewCounts(v, es)
    ensures ViewCounts(Folded(v, e, geo), es + [e])
  {
    hide Count, KeysOf, AddAllNew;
    CountSnoc(es, e, IsCommand);
    CountSnoc(es, e, IsAuth);
    CountSnoc(es, e, IsArtifact);
    CountSnoc(es, e, IsHttpRequest);
    KeysOfSnoc(es, e, UrlKeys);
    KeysOfSnoc(es, e, AttackKeys);
    AddAllNewMembers(v.detectedAttacks, AttackKeys(e));
  }

  lemma NewViewCounts(e: Event)
    ensures ViewCounts(NewView(e), [])
  {
  }

  lemma {:induction false} ViewOfCounts(ops: seq<Op>, sid: string, geo: Geo)
    requires IsSessionLog(ops, sid)
    ensures ViewCounts(ViewOf(ops, sid, geo), EventsIn(ops))
  {
    hide Folded, ViewCounts, NewView;
    var init, op := ops[..|ops| - 1], ops[|ops| - 1];
    if |ops| == 1 {
      NewViewCounts(op.e);
      FoldedCounts(NewView(op.e), [], op.e, geo);
      assert EventsIn(init) == [];
    } else {
      ViewOfCounts(init, sid, geo);
      if op.Ingest? {
        FoldedCounts(ViewOf(init, sid, geo), EventsIn(init), op.e, geo);
      } else {
        assert EventsIn(ops) == EventsIn(init);
        ProfileCounts(ViewOf(init, sid, geo), EventsIn(init), op.assignments[sid]);
      }
    }
  }

  lemma ProfileCounts(v: SessionView, es: seq<Event>, a: Assignment)
    requires ViewCounts(v, es)
    ensures ViewCounts(v.(profile := Some(a)), es)
  {
  }

  // ----- What a view says of its session's beginning, end and login.

  type Kind = Event -> bool

  const IsStart: Kind := (e: Event) => e.payload.SessionStart?
  const IsEnd: Kind := (e: Event) => e.payload.SessionEnd?
  const IsLogin: Kind := (e: Event) => e.payload.Auth? && e.payload.success

  /** Event `i` is of this kind and none after it is. */
  ghost predicate IsLast(es: seq<Event>, i: nat, kind: Kind) {
    i < |es| && kind(es[i]) && forall j :: i < j < |es| ==> !kind(es[j])
  }

  ghost predicate NoneIs(es: seq<Event>, kind: Kind) {
    forall j :: 0 <= j < |es| ==> !kind(es[j])
  }

  lemma LastSnoc(es: seq<Event>, e: Event, kind: Kind)
    ensures forall i: nat :: IsLast(es + [e], i, kind) <==> if kind(e) then i == |es| else IsLast(es, i, kind)
    ensures NoneIs(es + [e], kind) <==> NoneIs(es, kind) && !kind(e)
  {
    var all := es + [e];
    assert all[|es|] == e;
    assert forall j :: 0 <= j < |es| ==> all[j] == es[j];
  }

  /** The credential shown is that of the last login that succeeded. */
  ghost predicate LoginSays(v: SessionView, es: seq<Event>) {
    && (forall i: nat :: IsLast(es, i, IsLogin) ==>
          v.credentialUsed == Some(es[i].payload.username + ":" + es[i].payload.password))
    && (NoneIs(es, IsLogin) ==> v.credentialUsed == None)
  }

  /** Protocol, peer, client and place are those of the last start. */
  ghost predicate StartSays(v: SessionView, es: seq<Event>, geo: Geo) {
    && (forall i: nat :: IsLast(es, i, IsStart) ==>
          var x := es[i].payload.start;
          && v.protocol == ProtocolName(x.protocol) && v.srcIp == x.peer.srcIp && v.srcPort == x.peer.srcPort
          && v.clientBanner == x.clientBanner && v.hassh == x.hassh
          && v.geo == if x.peer.srcIp == "" then None else geo(x.peer.srcIp))
    && (NoneIs(es, IsStart) ==>
          v.protocol == "unknown" && v.srcIp == v.clientBanner == v.hassh == "" && v.srcPort == 0 && v.geo == None)
  }

  /** Time, reason and length of the session are those of the last end. */
  ghost predicate EndSays(v: SessionView, es: seq<Event>) {
    && (forall i: nat :: IsLast(es, i, IsEnd) ==>
          var x := es[i].payload.end;
          v.endedAt == Some(es[i].tsCollector) && v.endReason == Some(x.reason) && v.durationMs == x.durationMs)
    && (NoneIs(es, IsEnd) ==> v.endedAt == None && v.endReason == None && v.durationMs == 0)
  }

  ghost predicate Says(v: SessionView, es: seq<Event>, geo: Geo) {
    LoginSays(v, es) && StartSays(v, es, geo) && EndSays(v, es)
  }

  lemma FoldedSays(v: SessionView, es: seq<Event>, e: Event, geo: Geo)
    requires Says(v, es, geo)
    ensures Says(Folded(v, e, geo), es + [e], geo)
  {
    hide IsLast, NoneIs, AddNew, AddAllNew, ProtocolName;
    LastSnoc(es, e, IsLogin);
    LastSnoc(es, e, IsStart);
    LastSnoc(es, e, IsEnd);
    LastIn(es);
    var all := es + [e];
    assert all[|es|] == e && forall j :: 0 <= j < |es| ==> all[j] == es[j];
  }

  lemma LastIn(es: seq<Event>)
    ensures forall i: nat, kind :: IsLast(es, i, kind) ==> i < |es|
  {
  }

  lemma NewViewSays(e: Event, geo: Geo)
    ensures Says(NewView(e), [], geo)
  {
  }

  /** The session, its node and its start time are the creating event's. */
  ghost predicate OriginSays(v: SessionView, first: Event) {
    v.sessionId == first.sessionId && v.nodeId == first.nodeId && v.startedAt == first.tsCollector
  }

  ghost predicate IsLastProfile(ops: seq<Op>, i: nat) {
    i < |ops| && ops[i].Profile? && forall j :: i < j < |ops| ==> !ops[j].Profile?
  }

  /** The profile is the last one assigned. */
  ghost predicate ProfileSays(v: SessionView, ops: seq<Op>, sid: string)
    requires IsSessionLog(ops, sid)
  {
    && (forall i: nat :: IsLastProfile(ops, i) ==> v.profile == Some(ops[i].assignments[sid]))
    && ((forall i :: 0 <= i < |ops| ==> !ops[i].Profile?) ==> v.profile == None)
  }

  lemma ProfileSnoc(v: SessionView, ops: seq<Op>, op: Op, sid: string, now: SessionView)
    requires IsSessionLog(ops, sid) && IsSessionLog(ops + [op], sid) && ProfileSays(v, ops, sid)
    requires now.profile == if op.Profile? && sid in op.assignments then Some(op.assignments[sid]) else v.profile
    ensures ProfileSays(now, ops + [op], sid)
  {
    var all := ops + [op];
    assert all[|ops|] == op && forall j :: 0 <= j < |ops| ==> all[j] == ops[j];
    forall i: nat | IsLastProfile(all, i) ensures now.profile == Some(all[i].assignments[sid]) {
      if i < |ops| {
        assert !op.Profile? && IsLastProfile(ops, i);
      }
    }
  }

  lemma FoldedKeeps(v: SessionView, e: Event, geo: Geo)
    ensures Folded(v, e, geo).profile == v.profile
    ensures forall first :: OriginSays(v, first) ==> OriginSays(Folded(v, e, geo), first)
  {
  }

  lemma NewViewOrigin(e: Event)
    ensures OriginSays(NewView(e), e) && NewView(e).profile == None
  {
  }

  lemma OneOpSays(v: SessionView, ops: seq<Op>, sid: string)
    requires IsSessionLog(ops, sid) && |ops| == 1 && v.profile == None
    ensures ProfileSays(v, ops, sid)
  {
  }

  /** Everything else a view says is said by its session's events, and by the last
      profile assigned to it. */
  lemma {:induction false} ViewOfSays(ops: seq<Op>, sid: string, geo: Geo)
    requires IsSessionLog(ops, sid)
    ensures var v := ViewOf(ops, sid, geo);
            Says(v, EventsIn(ops), geo) && OriginSays(v, ops[0].e) && ProfileSays(v, ops, sid)
  {
    hide Folded, Says, NewView, OriginSays, ProfileSays;
    var init, op := ops[..|ops| - 1], ops[|ops| - 1];
    assert ops == init + [op];
    if |ops| == 1 {
      NewViewSays(op.e, geo);
      NewViewOrigin(op.e);
      FoldedSays(NewView(op.e), [], op.e, geo);
      FoldedKeeps(NewView(op.e), op.e, geo);
      OneOpSays(ViewOf(ops, sid, geo), ops, sid);
      assert EventsIn(init) == [];
    } else {
      assert IsSessionLog(init, sid);
      ViewOfSays(init, sid, geo);
      var v := ViewOf(init, sid, geo);
      if op.Ingest? {
        FoldedSays(v, EventsIn(init), op.e, geo);
        FoldedKeeps(v, op.e, geo);
      } else {
        assert EventsIn(ops) == EventsIn(init);
        ProfileSaysRest(v, EventsIn(init), geo, ops[0].e, op.assignments[sid]);
      }
      ProfileSnoc(v, init, op, sid, ViewOf(ops, sid, geo));
    }
  }

  lemma ProfileSaysRest(v: SessionView, es: seq<Event>, geo: Geo, first: Event, a: Assignment)
    requires Says(v, es, geo) && OriginSays(v, first)
    ensures Says(v.(profile := Some(a)), es, geo) && OriginSays(v.(profile := Some(a)), first)
  {
  }

  /** All of that for the log of one session. */
  ghost predicate ViewSays(v: SessionView, ops: seq<Op>, geo: Geo, sid: string) {
    IsSessionLog(ops, sid) && Says(v, EventsIn(ops), geo) && OriginSays(v, ops[0].e) && ProfileSays(v, ops, sid)
  }

  lemma SaysAll(ops: seq<Op>, sid: string, geo: Geo)
    requires IsSessionLog(ops, sid)
    ensures ViewSays(ViewOf(ops, sid, geo), ops, geo, sid)
  {
    hide Says, OriginSays, ProfileSays, ViewOf;
    ViewOfSays(ops, sid, geo);
  }

  /** Different protocols have different names. */
  lemma ProtocolNamesDiffer(p: Protocol, q: Protocol)
    ensures ProtocolName(p) == ProtocolName(q) <==> p == q
  {
    assert |"ssh"| == 3 && |"rdp"| == 3 && "ssh"[0] != "rdp"[0];
    assert |"telnet"| == 6 && |"canary"| == 6 && "telnet"[0] != "canary"[0];
  }

  /** A view's lists only grow at the end. */
  lemma {:induction false} ListsGrow(list: seq<string>, xs: seq<string>)
    ensures list <= AddAllNew(list, xs)
    decreases |xs|
  {
    if xs != [] {
      ListsGrow(list, xs[..|xs| - 1]);
    }
  }

  lemma FoldedGrows(v: SessionView, e: Event, geo: Geo)
    ensures v.artifactUrls <= Folded(v, e, geo).artifactUrls && v.detectedAttacks <= Folded(v, e, geo).detectedAttacks
  {
    hide AddAllNew;
    ListsGrow(v.detectedAttacks, AttackKeys(e));
  }

  /** The live index refines the history. After any calls whatever: the retained
      sessions are the last 5000 created, each once; views and buckets exist for
      exactly those, and say, and hold the first 2000 events of, what concerned
      the session since its creation; the ring holds the last 500 session
      events; the totals count all of them; and the fleet's health is what was
      heard of each sensor. */
  lemma IndexRefinesHistory(h: seq<Op>, geo: Geo)
    ensures var ix := Run(h, geo);
            && ix.cache.order == Suffix(Created(h), 5000) && Distinct(ix.cache.order)
            && ix.cache.sessions.Keys == Elements(ix.cache.order) == ix.cache.events.Keys
            && (forall sid :: sid in ix.cache.order ==>
                  && SessionRefines(ix.cache, h, geo, sid)
                  && ix.cache.events[sid] == Prefix(EventsIn(Since(h, sid)), 2000)
                  && ViewCounts(ix.cache.sessions[sid], EventsIn(Since(h, sid)))
                  && ViewSays(ix.cache.sessions[sid], Since(h, sid), geo, sid))
            && ix.recent == Suffix(SessionEvents(h), 500)
            && ix.totalEvents == |EventsIn(h)|
            && TotalsOf(ix.totals, SessionEvents(h))
            && (forall node :: HealthOf(ix.nodes, node, Heard(h, node)))
  {
    hide HealthOf, Heard;
    forall node ensures HealthOf(Run(h, geo).nodes, node, Heard(h, node)) {
      HealthAgrees(h, geo, node);
    }
    hide Run, TotalsOf, ViewCounts, ViewSays, Says, OriginSays, ProfileSays, Since, ViewOf, EventsIn, IsSessionLog, Distinct;
    CacheAgrees(h, geo);
    RecentAgrees(h, geo);
    TotalsAgree(h, geo);
    var c := Run(h, geo).cache;
    forall sid | sid in c.order
      ensures SessionRefines(c, h, geo, sid) && ViewCounts(c.sessions[sid], EventsIn(Since(h, sid)))
      ensures ViewSays(c.sessions[sid], Since(h, sid), geo, sid)
      ensures c.events[sid] == Prefix(EventsIn(Since(h, sid)), 2000)
    {
      assert SessionRefines(c, h, geo, sid);
      ViewOfCounts(Since(h, sid), sid, geo);
      SaysAll(Since(h, sid), sid, geo);
    }
  }
}
