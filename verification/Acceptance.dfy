/** Which messages the collector accepts, stores and refuses, in the messages' own
    terms (collector/src/ingest.rs, collector/src/normalize.rs, collector/src/store.rs). */
module Acceptance {
  import opened Basics
  import opened Events
  import opened SeqTracking
  import SessionRows
  import opened Ingest

  /** The subject is the prefix, a dot, this non-empty dot-free node, and then nothing
      or a further dotted part. */
  ghost predicate Names(subject: string, node: string) {
    node != "" && '.' !in node &&
    exists tail: string :: subject == "honeynet.events." + node + tail && (tail == "" || tail[0] == '.')
  }

  /** Digits and the letters of either case, less I, L, O and U. */
  predicate Base32(c: char) {
    || '0' <= c <= '9'
    || ('A' <= c <= 'Z' && c != 'I' && c != 'L' && c != 'O' && c != 'U')
    || ('a' <= c <= 'z' && c != 'i' && c != 'l' && c != 'o' && c != 'u')
  }

  /** What the collector asks of an envelope from this node. */
  ghost predicate WellFormed(env: Envelope, node: string) {
    && env.nodeId == node && env.seqNo > 0 && env.schemaVersion <= 1 && env.event.Some?
    && (env.sessionId == "" || (|env.sessionId| == 26 && forall i :: 0 <= i < 26 ==> Base32(env.sessionId[i])))
  }

  /** The alphabet, piece by piece. */
  lemma AlphabetPieces(c: char)
    ensures c in ULID_ALPHABET <==> c in "0123456789" || c in "ABCDEFGHJKMNPQRSTVWXYZ" || c in "abcdefghjkmnpqrstvwxyz"
  {
  }

  lemma IsDigit(c: char)
    ensures c in "0123456789" <==> '0' <= c <= '9'
  {
    if '0' <= c <= '9' {
      var n := c as int;
      assert n == 48 || n == 49 || n == 50 || n == 51 || n == 52 || n == 53 || n == 54 || n == 55 || n == 56 || n == 57;
    }
  }

  lemma IsUpper(c: char)
    ensures c in "ABCDEFGHJKMNPQRSTVWXYZ" <==> 'A' <= c <= 'Z' && c != 'I' && c != 'L' && c != 'O' && c != 'U'
  {
    if 'A' <= c <= 'Z' && c != 'I' && c != 'L' && c != 'O' && c != 'U' {
      var n := c as int;
      assert n == 65 || n == 66 || n == 67 || n == 68 || n == 69 || n == 70 || n == 71 || n == 72 || n == 74 || n == 75 || n == 77 || n == 78 || n == 80 || n == 81 || n == 82 || n == 83 || n == 84 || n == 86 || n == 87 || n == 88 || n == 89 || n == 90;
    }
  }

  lemma IsLower(c: char)
    ensures c in "abcdefghjkmnpqrstvwxyz" <==> 'a' <= c <= 'z' && c != 'i' && c != 'l' && c != 'o' && c != 'u'
  {
    if 'a' <= c <= 'z' && c != 'i' && c != 'l' && c != 'o' && c != 'u' {
      var n := c as int;
      assert n == 97 || n == 98 || n == 99 || n == 100 || n == 101 || n == 102 || n == 103 || n == 104 || n == 106 || n == 107 || n == 109 || n == 110 || n == 112 || n == 113 || n == 114 || n == 115 || n == 116 || n == 118 || n == 119 || n == 120 || n == 121 || n == 122;
    }
  }

  lemma AlphabetIs(c: char)
    ensures c in ULID_ALPHABET <==> Base32(c)
  {
    AlphabetPieces(c);
    IsDigit(c);
    IsUpper(c);
    IsLower(c);
  }

  lemma UlidIs(s: string)
    ensures IsUlid(s) <==> |s| == 26 && forall i :: 0 <= i < 26 ==> Base32(s[i])
  {
    hide Base32;
    forall i | 0 <= i < |s| ensures s[i] in ULID_ALPHABET <==> Base32(s[i]) {
      AlphabetIs(s[i]);
    }
  }

  lemma NamesIs(subject: string, node: string)
    ensures Names(subject, node) <==> NodeFromSubject(subject) == Some(node)
  {
    hide NodeFromSubject;
    NodeFromSubjectIff(subject, node);
    assert SUBJECT_PREFIX + "." == "honeynet.events.";
  }

  lemma NormalizeIs(env: Envelope, node: string, now: Timestamp)
    ensures Normalize(env, node, now).Ok? <==> node != "" && WellFormed(env, node)
  {
    hide IsUlid, Base32;
    UlidIs(env.sessionId);
  }

  /** A message is accepted if and only if it was decoded, its subject names the node
      its envelope claims, and the envelope is well formed. */
  lemma AcceptIff(m: Message)
    ensures Accept(m).Some? <==>
      m.decoded.Some? && Names(m.subject, m.decoded.value.nodeId) && WellFormed(m.decoded.value, m.decoded.value.nodeId)
  {
    hide NodeFromSubject, Names, WellFormed, Normalize;
    var node := NodeFromSubject(m.subject);
    if m.decoded.Some? {
      var env := m.decoded.value;
      NamesIs(m.subject, env.nodeId);
      ClaimsItself(env);
      if node.Some? {
        NormalizeIs(env, node.value, m.now);
        NamesIs(m.subject, node.value);
        NamedNotEmpty(m.subject, node.value);
      }
    }
  }

  lemma NamedNotEmpty(subject: string, node: string)
    ensures Names(subject, node) ==> node != ""
  {
  }

  lemma ClaimsItself(env: Envelope)
    ensures forall node :: WellFormed(env, node) ==> node == env.nodeId
  {
  }

  /** What an accepted message stands for: the envelope's claims, received now, and
      dated by the node if it said when. */
  lemma AcceptedSays(m: Message)
    requires Accept(m).Some?
    ensures m.decoded.Some? && m.decoded.value.event.Some?
    ensures var env := m.decoded.value;
            Accept(m).value ==
              Event(env.nodeId, env.seqNo, env.sessionId, if env.tsNode.Some? then env.tsNode.value else m.now, m.now,
                    env.event.value)
  {
    hide NodeFromSubject, IsUlid;
  }

  ghost predicate NamesSome(subject: string) {
    exists node :: Names(subject, node)
  }

  lemma NamesSomeIs(subject: string)
    ensures NamesSome(subject) <==> NodeFromSubject(subject).Some?
  {
    hide NodeFromSubject, Names;
    if NodeFromSubject(subject).Some? {
      NamesIs(subject, NodeFromSubject(subject).value);
    }
    forall node | Names(subject, node) ensures NodeFromSubject(subject).Some? {
      NamesIs(subject, node);
    }
  }

  /** Which one counter a refused message moves: decoding, where the subject names a
      node but the bytes are no envelope; identity, where the envelope claims another
      node than its subject; and the third for everything else. */
  lemma RefusalCounted(c: Collector, m: Message)
    requires WellSized(m) && Accept(m).None?
    ensures var s, t := c.stats, Handled(c, m).stats;
            t == if NamesSome(m.subject) && m.decoded.None? then s.(received := s.received + 1, rejectedDecode := s.rejectedDecode + 1)
                 else if NamesSome(m.subject) && m.decoded.value.nodeId != "" && !Names(m.subject, m.decoded.value.nodeId)
                 then s.(received := s.received + 1, rejectedIdentity := s.rejectedIdentity + 1)
                 else s.(received := s.received + 1, rejectedOther := s.rejectedOther + 1)
    ensures Handled(c, m).events == c.events && Handled(c, m).sessions == c.sessions && Handled(c, m).observed == c.observed
  {
    hide NodeFromSubject, Names, IsUlid, SessionUpserted, KeyOf, Verdict, Track, SeqTracking.Lookup;
    NamesSomeIs(m.subject);
    if m.decoded.Some? {
      NamesIs(m.subject, m.decoded.value.nodeId);
    }
  }

  /** The statements that write the event's row succeed: a fault in another statement
      may come later, and the session's statement is not run without a session. */
  predicate RowWritten(env: Envelope, fault: Fault) {
    fault.NoFault? || fault.ChildFault? || (fault.SessionFault? && env.sessionId == "")
  }

  /** The whole call succeeds: only credentials and artifacts have a statement after
      the event's row. */
  predicate AllWritten(env: Envelope, fault: Fault) {
    && RowWritten(env, fault)
    && (fault.ChildFault? ==> env.event.Some? && !env.event.value.Auth? && !env.event.value.Artifact?)
  }

  /** An accepted message leaves its session's row when that statement succeeds; its
      own row, unless the key had one, when the statements up to that succeed; and is
      counted as stored and observed when all do. */
  lemma AcceptedStored(c: Collector, m: Message)
    requires WellSized(m) && Accept(m).Some?
    ensures var e, d, env := Accept(m).value, Handled(c, m), m.decoded.value;
            && d.stats.received == c.stats.received + 1
            && d.stats.stored == c.stats.stored + (if AllWritten(env, m.fault) then 1 else 0)
            && d.stats.rejectedOther == c.stats.rejectedOther + (if AllWritten(env, m.fault) then 0 else 1)
            && d.observed == c.observed + (if AllWritten(env, m.fault) then [e] else [])
            && d.events.Keys == c.events.Keys + (if RowWritten(env, m.fault) then {(e.nodeId, AsI64(e.seqNo))} else {})
            && d.sessions.Keys == c.sessions.Keys +
               if env.sessionId != "" && !m.fault.SerializeFault? && !m.fault.SessionFault? then {env.sessionId} else {}
  {
    hide NodeFromSubject, Normalize, SessionRows.Upsert, Verdict, Track, SeqTracking.Lookup;
    assert c.observed + [] == c.observed;
  }

  lemma InsertsIs(m: Message)
    ensures Inserts(m).Some? <==> Accept(m).Some? && RowWritten(m.decoded.value, m.fault)
  {
    hide NodeFromSubject, Normalize;
  }

  // ----- Replays, counted.

  /** The counter of replays follows the log of accepted numbers. */
  lemma {:induction false} ReplaysFollowLog(ms: seq<Message>)
    requires AllWellSized(ms)
    ensures Run(ms).stats.replays == LogReplays(Numbers(ms))
  {
    hide Handled, Accept, Verdict, Track, SeqTracking.Lookup;
    if ms != [] {
      var init, m := ms[..|ms| - 1], ms[|ms| - 1];
      ReplaysFollowLog(init);
      CountersFollowLog(init);
      HandledReplays(Run(init), m);
      var e := Accept(m);
      if e.Some? {
        LogReplaysSnoc(Numbers(init), e.value.nodeId, e.value.seqNo);
      } else {
        assert Numbers(ms) == Numbers(init);
      }
    }
  }

  lemma HandledReplays(c: Collector, m: Message)
    requires WellSized(m)
    ensures var e := Accept(m);
            Handled(c, m).stats.replays == c.stats.replays +
              if e.Some? && Verdict(SeqTracking.Lookup(c.last, e.value.nodeId), e.value.seqNo).Replay? then 1 else 0
  {
    hide NodeFromSubject, Normalize, SessionUpserted, KeyOf, Verdict, Track, SeqTracking.Lookup, PutSucceeds, SessionWritten, EventWritten,
      Accept;
  }

  function LogReplays(log: seq<(string, U64Value)>): nat {
    if log == [] then 0 else LogReplays(log[..|log| - 1]) + if LastVerdict(log).Replay? then 1 else 0
  }

  lemma LogReplaysSnoc(log: seq<(string, U64Value)>, node: string, n: U64Value)
    ensures LogReplays(log + [(node, n)]) ==
      LogReplays(log) + if Verdict(SeqTracking.Lookup(TrackLog(log), node), n).Replay? then 1 else 0
  {
    hide Verdict, TrackLog, SeqTracking.Lookup;
    assert (log + [(node, n)])[..|log|] == log;
  }

  /** The accepted numbers, by position, that were not larger than all of their node
      since its last u64::MAX. */
  ghost function NotLarger(log: seq<(string, U64Value)>): set<nat> {
    set i: nat | i < |log| && ReplayedAt(log, i)
  }

  ghost predicate ReplayedAt(log: seq<(string, U64Value)>, i: nat)
    requires i < |log|
  {
    exists n :: n in SinceMax(Project(log[..i], log[i].0)) && n >= log[i].1
  }

  /** So the counter is how many accepted numbers were not larger than all of their
      node's before them, since its last u64::MAX. */
  lemma {:induction false} ReplaysMean(log: seq<(string, U64Value)>)
    ensures LogReplays(log) == |NotLarger(log)|
  {
    hide LastVerdict, ReplayedAt;
    if log == [] {
      assert NotLarger(log) == {};
    } else {
      var m := |log| - 1;
      var init := log[..m];
      ReplaysMean(init);
      LastReplayed(log);
      NotLargerSnoc(log);
    }
  }

  lemma NotLargerSnoc(log: seq<(string, U64Value)>)
    requires log != []
    ensures var m := |log| - 1;
            m !in NotLarger(log[..m]) && NotLarger(log) == NotLarger(log[..m]) + if ReplayedAt(log, m) then {m} else {}
  {
    hide ReplayedAt;
    var m := |log| - 1;
    forall i: nat | i < m ensures ReplayedAt(log, i) <==> ReplayedAt(log[..m], i) {
      ReplayedEarlier(log, m, i);
    }
  }

  lemma ReplayedEarlier(log: seq<(string, U64Value)>, m: nat, i: nat)
    requires i < m <= |log|
    ensures ReplayedAt(log, i) <==> ReplayedAt(log[..m], i)
  {
    assert log[..m][..i] == log[..i];
  }

  lemma LastReplayed(log: seq<(string, U64Value)>)
    requires log != []
    ensures LastVerdict(log).Replay? <==> ReplayedAt(log, |log| - 1)
  {
    hide LastVerdict, FinalVerdict, SinceMax;
    var o, before := log[|log| - 1], Project(log[..|log| - 1], log[|log| - 1].0);
    LastVerdictOfNode(log);
    var obs := before + [o.1];
    assert obs[..|before| + 1] == obs && obs[..|before|] == before;
    ReplayIff(obs, |before|);
  }
}
