/** The HTTP listener's sessions: `sessionFor`, `sweepIdle` and
    `closeAllSessions` (node/internal/protocols/web/server.go). Each locked region
    is one step, and so is each end reported after the lock is released, so that
    requests, sweeps and shutdown interleave freely. */
module WebSessions {
  import opened Basics

  type Id = nat

  datatype Live = Live(id: Id, lastSeen: int, requests: nat)

  datatype Event = Started(id: Id) | Ended(id: Id)

  /** The table of live sessions by source, those taken out of it whose end is
      still to be reported, and what was reported. */
  datatype Book = Book(live: map<string, Live>, removed: seq<Id>, log: seq<Event>)

  ghost function LiveIds(live: map<string, Live>): set<Id> {
    set src | src in live :: live[src].id
  }

  ghost function StartedIds(log: seq<Event>): set<Id> {
    set e | e in log && e.Started? :: e.id
  }

  ghost function EndedIds(log: seq<Event>): set<Id> {
    set e | e in log && e.Ended? :: e.id
  }

  /** Each session is in one place only: live under one source, taken out once,
      or ended once. */
  ghost predicate Balanced(b: Book) {
    && Distinct(b.log) && Distinct(b.removed)
    && (forall s, t :: s in b.live && t in b.live && s != t ==> b.live[s].id != b.live[t].id)
    && StartedIds(b.log) == EndedIds(b.log) + LiveIds(b.live) + Elements(b.removed)
    && EndedIds(b.log) !! LiveIds(b.live) && EndedIds(b.log) !! Elements(b.removed) && LiveIds(b.live) !! Elements(b.removed)
  }

  /** No session ends before it starts. */
  ghost predicate StartsFirst(log: seq<Event>) {
    forall j :: 0 <= j < |log| && log[j].Ended? ==> Started(log[j].id) in log[..j]
  }

  lemma DistinctFront<T>(s: seq<T>)
    requires Distinct(s) && s != []
    ensures var front, last := s[..|s| - 1], s[|s| - 1]; Distinct(front) && last !in front && s == front + [last]
  {
    var front := s[..|s| - 1];
    assert forall i, j :: 0 <= i < j < |front| ==> front[i] == s[i] && front[j] == s[j];
  }

  lemma {:induction false} DistinctSize<T>(s: seq<T>)
    requires Distinct(s)
    ensures |Elements(s)| == |s|
  {
    if s != [] {
      var front, last := s[..|s| - 1], s[|s| - 1];
      DistinctFront(s);
      DistinctSize(front);
      assert Elements(s) == Elements(front) + {last};
    }
  }

  lemma LiveIdsWithout(live: map<string, Live>, src: string)
    requires src in live
    requires forall s, t :: s in live && t in live && s != t ==> live[s].id != live[t].id
    ensures var rest := LiveIds(live - {src}); LiveIds(live) == rest + {live[src].id} && live[src].id !in rest
  {
    var rest := live - {src};
    assert live[src].id in LiveIds(live);
    assert forall s :: s in rest ==> rest[s] == live[s];
  }

  lemma {:induction false} LiveIdsSize(live: map<string, Live>)
    requires forall s, t :: s in live && t in live && s != t ==> live[s].id != live[t].id
    ensures |LiveIds(live)| == |live|
    decreases |live|
  {
    hide LiveIds;
    NoLiveIds();
    if live != map[] {
      var src :| src in live;
      var rest := live - {src};
      LiveIdsSize(rest);
      LiveIdsWithout(live, src);
      assert live.Keys == rest.Keys + {src};
    }
  }

  /** The number of starts and of ends in a log. */
  function Starts(log: seq<Event>): nat {
    if log == [] then 0 else Starts(log[..|log| - 1]) + if log[|log| - 1].Started? then 1 else 0
  }

  function Ends(log: seq<Event>): nat {
    if log == [] then 0 else Ends(log[..|log| - 1]) + if log[|log| - 1].Ended? then 1 else 0
  }

  lemma {:induction false} LogSizes(log: seq<Event>)
    requires Distinct(log)
    ensures |StartedIds(log)| == Starts(log) && |EndedIds(log)| == Ends(log)
  {
    hide StartedIds, EndedIds, Distinct;
    NoIds();
    if log != [] {
      var front, last := log[..|log| - 1], log[|log| - 1];
      DistinctFront(log);
      LogSizes(front);
      LogSnoc(front, last);
    }
  }

  lemma NoLiveIds()
    ensures LiveIds(map[]) == {}
  {
  }

  lemma NoIds()
    ensures StartedIds([]) == {} && EndedIds([]) == {}
  {
  }

  lemma LogSnoc(log: seq<Event>, e: Event)
    ensures StartedIds(log + [e]) == StartedIds(log) + if e.Started? then {e.id} else {}
    ensures EndedIds(log + [e]) == EndedIds(log) + if e.Ended? then {e.id} else {}
    ensures forall id :: id in StartedIds(log) <==> Started(id) in log
    ensures forall id :: id in EndedIds(log) <==> Ended(id) in log
  {
    var all := log + [e];
    assert forall x :: x in all <==> x in log || x == e;
  }

  /** The books balance: every start is an end, a live session, or a session
      waiting for its end to be reported. */
  lemma Conserved(b: Book)
    requires Balanced(b)
    ensures Starts(b.log) == Ends(b.log) + |b.live| + |b.removed|
  {
    LogSizes(b.log);
    LiveIdsSize(b.live);
    DistinctSize(b.removed);
    var ended, live, removed := EndedIds(b.log), LiveIds(b.live), Elements(b.removed);
    assert |ended + live| == |ended| + |live|;
    assert |ended + live + removed| == |ended + live| + |removed|;
  }

  lemma DistinctSnoc<T>(s: seq<T>, x: T)
    requires Distinct(s) && x !in s
    ensures Distinct(s + [x]) && Elements(s + [x]) == Elements(s) + {x}
  {
  }

  lemma LiveIdsOpened(live: map<string, Live>, src: string, l: Live)
    requires src !in live
    ensures LiveIds(live[src := l]) == LiveIds(live) + {l.id}
  {
    var now := live[src := l];
    assert forall s :: s in live ==> now[s] == live[s] && now[s].id in LiveIds(now);
    assert now[src].id in LiveIds(now);
  }

  lemma LiveIdsHold(live: map<string, Live>)
    ensures forall s :: s in live ==> live[s].id in LiveIds(live)
  {
  }

  /** Opening a session under a new number. */
  lemma OpenKeeps(b: Book, src: string, l: Live)
    requires Balanced(b) && StartsFirst(b.log) && src !in b.live && l.id !in StartedIds(b.log)
    ensures var c := Book(b.live[src := l], b.removed, b.log + [Started(l.id)]); Balanced(c) && StartsFirst(c.log)
  {
    hide LiveIds;
    LogSnoc(b.log, Started(l.id));
    DistinctSnoc(b.log, Started(l.id));
    LiveIdsOpened(b.live, src, l);
    LiveIdsHold(b.live);
    LaterKeepsOrder(b.log, Started(l.id));
  }

  lemma LaterKeepsOrder(log: seq<Event>, e: Event)
    requires StartsFirst(log) && (e.Ended? ==> Started(e.id) in log)
    ensures StartsFirst(log + [e])
  {
    var all := log + [e];
    forall j | 0 <= j < |all| && all[j].Ended? ensures Started(all[j].id) in all[..j] {
      if j < |log| {
        assert all[..j] == log[..j];
      } else {
        assert all[..j] == log;
      }
    }
  }

  /** Another request of a live session. */
  lemma SeenKeeps(b: Book, src: string, l: Live)
    requires Balanced(b) && src in b.live && l.id == b.live[src].id
    ensures Balanced(b.(live := b.live[src := l]))
  {
    var live := b.live[src := l];
    assert forall s :: s in live ==> live[s].id == b.live[s].id;
    assert LiveIds(live) == LiveIds(b.live);
  }

  /** Taking a session out of the table. */
  lemma TakeKeeps(b: Book, src: string)
    requires Balanced(b) && src in b.live
    ensures Balanced(b.(live := b.live - {src}, removed := b.removed + [b.live[src].id]))
  {
    var id, rest := b.live[src].id, b.live - {src};
    LiveIdsWithout(b.live, src);
    DistinctSnoc(b.removed, id);
  }

  function Without(s: seq<Id>, i: nat): seq<Id>
    requires i < |s|
  {
    s[..i] + s[i + 1..]
  }

  lemma DistinctWithout(s: seq<Id>, i: nat)
    requires Distinct(s) && i < |s|
    ensures Distinct(Without(s, i)) && Elements(s) == Elements(Without(s, i)) + {s[i]} && s[i] !in Without(s, i)
  {
    var rest := Without(s, i);
    assert s == s[..i] + [s[i]] + s[i + 1..];
    assert forall j :: 0 <= j < |rest| ==> rest[j] == s[if j < i then j else j + 1];
  }

  /** Reporting the end of any one taken out. */
  lemma EndKeeps(b: Book, i: nat)
    requires Balanced(b) && StartsFirst(b.log) && i < |b.removed|
    ensures var c := b.(removed := Without(b.removed, i), log := b.log + [Ended(b.removed[i])]); Balanced(c) && StartsFirst(c.log)
  {
    var id := b.removed[i];
    LogSnoc(b.log, Ended(id));
    assert id in Elements(b.removed);
    DistinctSnoc(b.log, Ended(id));
    DistinctWithout(b.removed, i);
    LaterKeepsOrder(b.log, Ended(id));
  }

  lemma NextIsFresh(log: seq<Event>, next: Id)
    requires forall id :: id in StartedIds(log) ==> id < next
    ensures Started(next) !in log && forall id :: id in StartedIds(log + [Started(next)]) ==> id < next + 1
  {
    LogSnoc(log, Started(next));
  }

  class Server {
    /** Zero or less for no limit. */
    const maxSessions: int
    const idle: int
    var book: Book
    var nextId: Id

    ghost predicate Valid()
      reads this
    {
      && Balanced(book) && StartsFirst(book.log)
      && (forall id :: id in StartedIds(book.log) ==> id < nextId)
      && (maxSessions > 0 ==> |book.live| <= maxSessions)
    }

    constructor (maxSessions: int, idle: int)
      ensures Valid() && book == Book(map[], [], []) && this.maxSessions == maxSessions && this.idle == idle
    {
      this.maxSessions, this.idle := maxSessions, idle;
      book, nextId := Book(map[], [], []), 0;
    }

    /** The session of a request, or none when the budget is spent. A source
        without a live session gets a new one. */
    method SessionFor(src: string, now: int) returns (rec: Option<Id>)
      requires Valid()
      modifies this
      ensures Valid()
      ensures src in old(book.live) ==>
        var l := old(book.live[src]);
        rec == Some(l.id) && book == old(book).(live := old(book.live)[src := Live(l.id, now, l.requests + 1)])
      ensures src !in old(book.live) && 0 < maxSessions <= |old(book.live)| ==> rec.None? && book == old(book)
      ensures src !in old(book.live) && !(0 < maxSessions <= |old(book.live)|) ==>
        rec.Some? && Started(rec.value) !in old(book.log)
        && book == Book(old(book.live)[src := Live(rec.value, now, 1)], old(book.removed), old(book.log) + [Started(rec.value)])
    {
      hide Balanced, StartsFirst, StartedIds, LiveIds, EndedIds;
      if src in book.live {
        var l := book.live[src];
        SeenKeeps(book, src, Live(l.id, now, l.requests + 1));
        book := book.(live := book.live[src := Live(l.id, now, l.requests + 1)]);
        return Some(l.id);
      }
      if maxSessions > 0 && |book.live| >= maxSessions {
        return None;
      }
      OpenKeeps(book, src, Live(nextId, now, 1));
      NextIsFresh(book.log, nextId);
      book := Book(book.live[src := Live(nextId, now, 1)], book.removed, book.log + [Started(nextId)]);
      nextId := nextId + 1;
      return Some(nextId - 1);
    }

    /** The locked part of `sweepIdle`, or of `closeAllSessions` with `all`. */
    method TakeOut(all: bool, now: int)
      requires Valid()
      modifies this`book
      ensures Valid() && book.log == old(book.log)
      ensures book.live == map s | s in old(book.live) && !all && now - old(book.live[s]).lastSeen <= idle :: old(book.live[s])
      ensures old(book.removed) <= book.removed
    {
      hide Balanced, StartsFirst;
      ghost var was := book.live;
      var todo := book.live.Keys;
      while todo != {}
        invariant Valid() && book.log == old(book.log) && old(book.removed) <= book.removed && todo <= was.Keys
        invariant forall s :: s in todo ==> s in book.live
        invariant forall s :: s in book.live ==> s in was && book.live[s] == was[s]
        invariant forall s :: s in was && s !in todo ==> (s in book.live <==> !all && now - was[s].lastSeen <= idle)
        decreases |todo|
      {
        var src :| src in todo;
        todo := todo - {src};
        if all || now - book.live[src].lastSeen > idle {
          TakeKeeps(book, src);
          book := book.(live := book.live - {src}, removed := book.removed + [book.live[src].id]);
        }
      }
    }

    /** One `SessionEnd` after the lock is released. Sweeps and a shutdown report
        their own lists concurrently, so it may be any of those taken out. */
    method EndOne(i: nat)
      requires Valid() && i < |book.removed|
      modifies this`book
      ensures Valid()
      ensures book == Book(old(book.live), Without(old(book.removed), i), old(book.log) + [Ended(old(book.removed)[i])])
    {
      hide Balanced, StartsFirst, StartedIds, EndedIds, LiveIds;
      EndKeeps(book, i);
      LogSnoc(book.log, Ended(book.removed[i]));
      book := book.(removed := Without(book.removed, i), log := book.log + [Ended(book.removed[i])]);
    }
  }

  datatype Step = Request(src: string, now: int) | Sweep(now: int) | Shutdown | ReportEnd(k: nat)

  /** Every interleaving of requests, sweeps, shutdowns and reported ends: the
      books balance throughout, nothing is reported twice or ended before it
      started, and the budget holds. */
  method Serve(server: Server, steps: seq<Step>)
    requires server.Valid()
    modifies server
    ensures server.Valid()
    ensures Starts(server.book.log) == Ends(server.book.log) + |server.book.live| + |server.book.removed|
    ensures Distinct(server.book.log) && StartsFirst(server.book.log)
    ensures server.maxSessions > 0 ==> |server.book.live| <= server.maxSessions
  {
    for i := 0 to |steps|
      invariant server.Valid()
    {
      match steps[i]
      case Request(src, now) => var _ := server.SessionFor(src, now);
      case Sweep(now) => server.TakeOut(false, now);
      case Shutdown => server.TakeOut(true, 0);
      case ReportEnd(k) =>
        if k < |server.book.removed| {
          server.EndOne(k);
        }
    }
    Conserved(server.book);
  }
}
