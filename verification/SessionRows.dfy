/** The `sessions` table (`upsert_session` in collector/src/store.rs). */
module SessionRows {
  import opened Basics
  import opened Events

  /** A row. The columns written by a start event are null together until the
      first one arrives, and so are the columns written by an end event. */
  datatype SessionRow = SessionRow(
    nodeId: string, startedAt: Timestamp, begun: Option<StartInfo>, ended: Option<(Timestamp, EndInfo)>)

  /** INSERT … ON CONFLICT (session_id) …, by kind of event. */
  function Upsert(row: Option<SessionRow>, e: Event): SessionRow {
    match e.payload
    case SessionStart(s) =>
      if row.Some? then row.value.(begun := Some(s), startedAt := e.tsCollector)
      else SessionRow(e.nodeId, e.tsCollector, Some(s), None)
    case SessionEnd(x) =>
      if row.Some? then row.value.(ended := Some((e.tsCollector, x)))
      else SessionRow(e.nodeId, e.tsCollector, None, Some((e.tsCollector, x)))
    case _ =>
      if row.Some? then row.value else SessionRow(e.nodeId, e.tsCollector, None, None)
  }

  /** The row of a session once its events have arrived in this order. */
  function RowAfter(es: seq<Event>): Option<SessionRow> {
    if es == [] then None else Some(Upsert(RowAfter(es[..|es| - 1]), es[|es| - 1]))
  }

  ghost predicate HasStart(es: seq<Event>) {
    exists e :: e in es && e.payload.SessionStart?
  }

  /** The last start to have arrived. */
  function LastStart(es: seq<Event>): (r: Option<Event>)
    ensures r.Some? <==> HasStart(es)
    ensures r.Some? ==> r.value in es && r.value.payload.SessionStart?
  {
    if es == [] then None
    else if es[|es| - 1].payload.SessionStart? then Some(es[|es| - 1])
    else
      assert es == es[..|es| - 1] + [es[|es| - 1]];
      LastStart(es[..|es| - 1])
  }

  /** The last end to have arrived. */
  function LastEnd(es: seq<Event>): (r: Option<Event>)
    ensures r.None? <==> forall e :: e in es ==> !e.payload.SessionEnd?
    ensures r.Some? ==> r.value in es && r.value.payload.SessionEnd?
  {
    if es == [] then None
    else if es[|es| - 1].payload.SessionEnd? then Some(es[|es| - 1])
    else
      assert es == es[..|es| - 1] + [es[|es| - 1]];
      LastEnd(es[..|es| - 1])
  }

  /** What every arrival order produces: the node of the first event, the columns
      of the last start and of the last end, and a start time that is the last
      start's or, without any start, the first arrival's. */
  lemma {:induction false} RowShape(es: seq<Event>)
    requires es != []
    ensures RowAfter(es) == Some(SessionRow(
      es[0].nodeId,
      if LastStart(es).Some? then LastStart(es).value.tsCollector else es[0].tsCollector,
      if LastStart(es).Some? then Some(LastStart(es).value.payload.start) else None,
      if LastEnd(es).Some? then Some((LastEnd(es).value.tsCollector, LastEnd(es).value.payload.end)) else None))
  {
    if |es| > 1 {
      RowShape(es[..|es| - 1]);
    }
  }

  /** Event `i` is a start and none after it is. */
  ghost predicate IsLastStart(es: seq<Event>, i: nat) {
    i < |es| && es[i].payload.SessionStart? && forall j :: i < j < |es| ==> !es[j].payload.SessionStart?
  }

  ghost predicate IsLastEnd(es: seq<Event>, i: nat) {
    i < |es| && es[i].payload.SessionEnd? && forall j :: i < j < |es| ==> !es[j].payload.SessionEnd?
  }

  lemma {:induction false} LastStartAt(es: seq<Event>, i: nat)
    requires IsLastStart(es, i)
    ensures LastStart(es) == Some(es[i])
  {
    if i < |es| - 1 {
      LastStartAt(es[..|es| - 1], i);
    }
  }

  lemma {:induction false} LastEndAt(es: seq<Event>, i: nat)
    requires IsLastEnd(es, i)
    ensures LastEnd(es) == Some(es[i])
  {
    if i < |es| - 1 {
      LastEndAt(es[..|es| - 1], i);
    }
  }

  /** Column by column: what a start says and its time come from the last start there
      is, what an end says and its time from the last end; without a start the row
      begins with its first event, and the node is always that one's. */
  lemma RowColumns(es: seq<Event>)
    requires es != []
    ensures var row := RowAfter(es).value;
            && row.nodeId == es[0].nodeId
            && (forall i: nat :: IsLastStart(es, i) ==> row.begun == Some(es[i].payload.start) && row.startedAt == es[i].tsCollector)
            && (forall i: nat :: IsLastEnd(es, i) ==> row.ended == Some((es[i].tsCollector, es[i].payload.end)))
            && ((forall i :: 0 <= i < |es| ==> !es[i].payload.SessionStart?) ==> row.begun == None && row.startedAt == es[0].tsCollector)
            && ((forall i :: 0 <= i < |es| ==> !es[i].payload.SessionEnd?) ==> row.ended == None)
  {
    hide RowAfter, LastStart, LastEnd;
    RowShape(es);
    forall i: nat | IsLastStart(es, i) ensures LastStart(es) == Some(es[i]) {
      LastStartAt(es, i);
    }
    forall i: nat | IsLastEnd(es, i) ensures LastEnd(es) == Some(es[i]) {
      LastEndAt(es, i);
    }
  }

  /** Arrival order leaves no trace in the row. */
  ghost predicate OrderFree(es: seq<Event>) {
    forall p: seq<Event> :: multiset(p) == multiset(es) ==> RowAfter(p) == RowAfter(es)
  }

  ghost predicate OneNode(es: seq<Event>) {
    forall a, b :: a in es && b in es ==> a.nodeId == b.nodeId
  }

  ghost predicate OneTime(es: seq<Event>) {
    forall a, b :: a in es && b in es ==> a.tsCollector == b.tsCollector
  }

  ghost predicate StartsAgree(es: seq<Event>) {
    forall a, b :: a in es && b in es && a.payload.SessionStart? && b.payload.SessionStart? ==>
      a.payload == b.payload && a.tsCollector == b.tsCollector
  }

  ghost predicate EndsAgree(es: seq<Event>) {
    forall a, b :: a in es && b in es && a.payload.SessionEnd? && b.payload.SessionEnd? ==>
      a.payload == b.payload && a.tsCollector == b.tsCollector
  }

  /** What the events themselves must satisfy for the order not to matter. */
  ghost predicate OrderFreeEvents(es: seq<Event>) {
    OneNode(es) && StartsAgree(es) && EndsAgree(es) && (HasStart(es) || OneTime(es))
  }

  lemma SameMembers(p: seq<Event>, es: seq<Event>)
    requires multiset(p) == multiset(es)
    ensures |p| == |es| && forall e :: e in p <==> e in es
  {
    assert |multiset(p)| == |p| && |multiset(es)| == |es|;
    forall e ensures e in p <==> e in es {
      assert e in p <==> e in multiset(p);
      assert e in es <==> e in multiset(es);
    }
  }

  lemma SameRow(p: seq<Event>, es: seq<Event>)
    requires multiset(p) == multiset(es) && OrderFreeEvents(es)
    ensures RowAfter(p) == RowAfter(es)
  {
    SameMembers(p, es);
    if es != [] {
      RowShape(p);
      RowShape(es);
      assert p[0] in es && es[0] in es;
    }
  }

  function MoveFirst(es: seq<Event>, i: nat): seq<Event>
    requires i < |es|
  {
    [es[i]] + es[..i] + es[i + 1..]
  }

  function MoveLast(es: seq<Event>, i: nat): seq<Event>
    requires i < |es|
  {
    es[..i] + es[i + 1..] + [es[i]]
  }

  lemma MovesPermute(es: seq<Event>, i: nat)
    requires i < |es|
    ensures multiset(MoveFirst(es, i)) == multiset(es) == multiset(MoveLast(es, i))
  {
    assert es == es[..i] + [es[i]] + es[i + 1..];
  }

  /** The row of a session with the given event moved to the end. */
  lemma MovedLast(es: seq<Event>, i: nat)
    requires OrderFree(es) && i < |es|
    ensures es[i].payload.SessionStart? ==>
      RowAfter(es).value.begun == Some(es[i].payload.start) && RowAfter(es).value.startedAt == es[i].tsCollector
    ensures es[i].payload.SessionEnd? ==> RowAfter(es).value.ended == Some((es[i].tsCollector, es[i].payload.end))
  {
    var p := MoveLast(es, i);
    MovesPermute(es, i);
    RowShape(p);
    assert p[|p| - 1] == es[i];
  }

  lemma MovedFirst(es: seq<Event>, i: nat)
    requires OrderFree(es) && i < |es|
    ensures RowAfter(es).value.nodeId == es[i].nodeId
    ensures !HasStart(es) ==> RowAfter(es).value.startedAt == es[i].tsCollector
  {
    var p := MoveFirst(es, i);
    MovesPermute(es, i);
    SameMembers(p, es);
    RowShape(p);
  }

  /** Arrival order is invisible exactly when all events name one node, all
      starts agree, all ends agree, and there is a start to fix the start time
      (or every event carries the same time). */
  lemma OrderFreeIff(es: seq<Event>)
    ensures OrderFree(es) <==> OrderFreeEvents(es)
  {
    if OrderFreeEvents(es) {
      forall p: seq<Event> | multiset(p) == multiset(es) ensures RowAfter(p) == RowAfter(es) {
        SameRow(p, es);
      }
    }
    if OrderFree(es) {
      forall a, b | a in es && b in es
        ensures a.nodeId == b.nodeId
        ensures a.payload.SessionStart? && b.payload.SessionStart? ==> a.payload == b.payload && a.tsCollector == b.tsCollector
        ensures a.payload.SessionEnd? && b.payload.SessionEnd? ==> a.payload == b.payload && a.tsCollector == b.tsCollector
        ensures !HasStart(es) ==> a.tsCollector == b.tsCollector
      {
        var i :| 0 <= i < |es| && es[i] == a;
        var j :| 0 <= j < |es| && es[j] == b;
        MovedFirst(es, i);
        MovedFirst(es, j);
        MovedLast(es, i);
        MovedLast(es, j);
      }
    }
  }

  /** The case the schema is designed for: one node, one start, one end, and
      anything else in between, in any order. */
  lemma OneStartOneEnd(es: seq<Event>, p: seq<Event>, s: nat, x: nat)
    requires OneNode(es) && s < |es| && x < |es|
    requires forall i :: 0 <= i < |es| ==> (es[i].payload.SessionStart? <==> i == s) && (es[i].payload.SessionEnd? <==> i == x)
    requires multiset(p) == multiset(es)
    ensures RowAfter(p) == Some(SessionRow(
      es[s].nodeId, es[s].tsCollector, Some(es[s].payload.start), Some((es[x].tsCollector, es[x].payload.end))))
  {
    assert es[s] in es && es[x] in es;
    SameRow(p, es);
    RowShape(es);
    assert es[0] in es;
  }
}
