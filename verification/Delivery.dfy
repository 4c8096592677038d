/** The sensor's delivery protocol as a state machine over the database
    transactions of the spool and the calls of the drain loop
    (node/internal/spool/spool.go, node/internal/transport/nats.go).

    Appends run concurrently with the publisher and with one another; reserving
    a sequence number and storing the record are separate transactions. A
    crash can come between any two steps. */
module Delivery {
  import opened Basics
  import opened Events
  import opened PendingLog

  /** An envelope stored under its sequence number, which it also carries. */
  datatype Record = Record(seqNo: nat, env: Envelope)

  datatype Publisher =
    | Idle
    | Publishing(batch: seq<Record>, sent: nat)
    | Flushed(batch: seq<Record>)

  datatype State = State(
    // Durable: the meta and events buckets.
    counter: nat,
    pending: map<nat, Envelope>,
    // Volatile: the eviction counter, appends between their two transactions,
    // the drain loop, and the bus client's write buffer.
    dropped: nat,
    appending: set<nat>,
    publisher: Publisher,
    buffer: set<Record>,
    // The bus.
    bus: set<Record>,
    // History: what was ever reserved, stored and evicted, and the evictions
    // counted by earlier process lifetimes.
    reservations: nat,
    stored: set<Record>,
    evicted: set<Record>,
    droppedBefore: nat)

  const INITIAL: State := State(0, map[], 0, {}, Idle, {}, {}, 0, {}, {}, 0)

  datatype Step =
    | Reserve
    | Store(n: nat, env: Envelope, evictions: nat)
    | StoreFails(n: nat, evictions: nat)
    | Peek(size: nat)
    | PublishOne
    | PublishFails
    | Arrives(record: Record)
    | LinkLost
    | FlushOk
    | FlushFails
    | Ack
    | AckFails
    | Crash

  /** The `n` oldest pending records, oldest first. */
  ghost function OldestRecords(pending: map<nat, Envelope>, n: nat): seq<Record> {
    var o := Oldest(pending.Keys, n);
    seq(|o|, i requires 0 <= i < |o| => (assert o[i] in o; Record(o[i], pending[o[i]])))
  }

  function Numbers(batch: seq<Record>): set<nat> {
    set r | r in batch :: r.seqNo
  }

  ghost predicate Enabled(s: State, step: Step) {
    match step
    case Store(n, _, k) => n in s.appending && k <= |s.pending.Keys|
    case StoreFails(n, k) => n in s.appending && k <= |s.pending.Keys|
    case Peek(_) => s.publisher.Idle?
    case PublishOne => s.publisher.Publishing? && s.publisher.sent < |s.publisher.batch|
    case PublishFails => s.publisher.Publishing? && s.publisher.sent < |s.publisher.batch|
    case Arrives(r) => r in s.buffer
    // A flush that succeeds means the server holds everything published.
    case FlushOk => s.publisher.Publishing? && s.publisher.sent == |s.publisher.batch|
                    && Elements(s.publisher.batch) <= s.bus + s.buffer
    case FlushFails => s.publisher.Publishing? && s.publisher.sent == |s.publisher.batch|
    case Ack => s.publisher.Flushed?
    case AckFails => s.publisher.Flushed?
    case _ => true
  }

  ghost function Next(s: State, step: Step): State
    requires Enabled(s, step)
  {
    match step
    case Reserve =>
      var n := (s.counter + 1) % U64;
      s.(counter := n, appending := s.appending + {n}, reservations := s.reservations + 1)
    case Store(n, env, k) =>
      var stamped := env.(seqNo := n);
      s.(pending := Evict(s.pending, k)[n := stamped], dropped := s.dropped + k, appending := s.appending - {n},
         stored := s.stored + {Record(n, stamped)}, evicted := s.evicted + Elements(OldestRecords(s.pending, k)))
    case StoreFails(n, k) =>
      s.(dropped := s.dropped + k, appending := s.appending - {n})
    case Peek(size) =>
      var batch := OldestRecords(s.pending, size);
      if batch == [] then s else s.(publisher := Publishing(batch, 0))
    case PublishOne =>
      s.(buffer := s.buffer + {s.publisher.batch[s.publisher.sent]},
         publisher := Publishing(s.publisher.batch, s.publisher.sent + 1))
    case PublishFails => s.(publisher := Idle)
    case Arrives(r) => s.(bus := s.bus + {r}, buffer := s.buffer - {r})
    case LinkLost => s.(buffer := {})
    case FlushOk => s.(bus := s.bus + s.buffer, buffer := {}, publisher := Flushed(s.publisher.batch))
    case FlushFails => s.(publisher := Idle)
    case Ack => s.(pending := s.pending - Numbers(s.publisher.batch), publisher := Idle)
    case AckFails => s.(publisher := Idle)
    case Crash =>
      s.(dropped := 0, droppedBefore := s.droppedBefore + s.dropped, appending := {}, publisher := Idle, buffer := {})
  }

  /** Where a run of steps leads, if each was possible when it was taken. */
  ghost function Reach(steps: seq<Step>): Option<State> {
    if steps == [] then Some(INITIAL) else
      var before := Reach(steps[..|steps| - 1]);
      if before.Some? && Enabled(before.value, steps[|steps| - 1])
      then Some(Next(before.value, steps[|steps| - 1])) else None
  }

  // ----- The invariant.

  /** The reservation that hands out a number: the counter starts at 1 and the
      2^64-th reservation wraps to 0. */
  function Ticket(n: nat): nat {
    if n == 0 then U64 else n
  }

  ghost predicate IsPending(s: State, r: Record) {
    r.seqNo in s.pending && s.pending[r.seqNo] == r.env
  }

  /** Numbers in use were reserved, and no number is used twice. */
  ghost predicate NumbersFresh(s: State) {
    && s.counter == s.reservations % U64
    && (forall n :: n in s.appending ==> n < U64 && Ticket(n) <= s.reservations)
    && (forall r :: r in s.stored ==> r.seqNo < U64 && Ticket(r.seqNo) <= s.reservations && r.seqNo !in s.appending)
    && (forall r :: r in s.stored ==> r.env.seqNo == r.seqNo)
    && (forall r, q :: r in s.stored && q in s.stored && r.seqNo == q.seqNo ==> r == q)
  }

  ghost predicate Batched(s: State, r: Record) {
    !s.publisher.Idle? && r in s.publisher.batch
  }

  /** Every copy of a record is a copy of one that was stored. */
  ghost predicate NothingForged(s: State) {
    && (forall n :: n in s.pending ==> Record(n, s.pending[n]) in s.stored)
    && (forall r :: r in s.bus || r in s.buffer || r in s.evicted || Batched(s, r) ==> r in s.stored)
    && (s.publisher.Flushed? ==> forall r :: r in s.publisher.batch ==> r in s.bus)
  }

  ghost predicate Accounted(s: State, r: Record) {
    IsPending(s, r) || r in s.bus || r in s.evicted
  }

  ghost predicate NothingLost(s: State) {
    && (forall r :: r in s.stored ==> Accounted(s, r))
    && |s.evicted| <= s.droppedBefore + s.dropped
  }

  ghost predicate Inv(s: State) {
    NumbersFresh(s) && NothingForged(s) && NothingLost(s)
  }

  lemma OldestRecordsPending(pending: map<nat, Envelope>, n: nat)
    ensures |OldestRecords(pending, n)| == Min(n, |pending.Keys|)
    ensures forall r :: r in OldestRecords(pending, n) ==> r.seqNo in pending && pending[r.seqNo] == r.env
    ensures forall m :: m in pending && m !in Evict(pending, n) ==> Record(m, pending[m]) in OldestRecords(pending, n)
  {
    var o, rs := Oldest(pending.Keys, n), OldestRecords(pending, n);
    forall r | r in rs ensures r.seqNo in pending && pending[r.seqNo] == r.env {
      var i :| 0 <= i < |rs| && rs[i] == r;
      assert o[i] in o;
    }
    forall m | m in pending && m !in Evict(pending, n) ensures Record(m, pending[m]) in rs {
      assert m in o;
      var i :| 0 <= i < |o| && o[i] == m;
      assert rs[i] == Record(m, pending[m]);
    }
  }

  lemma {:induction false} ElementsAtMost<T>(s: seq<T>)
    ensures |Elements(s)| <= |s|
  {
    if s != [] {
      ElementsAtMost(s[1..]);
      assert Elements(s) == {s[0]} + Elements(s[1..]);
    }
  }

  lemma ReserveKeeps(s: State)
    requires Inv(s) && s.reservations < U64
    ensures Inv(Next(s, Reserve))
  {
    var t := Next(s, Reserve);
    assert Ticket(t.counter) == t.reservations;
    assert forall r :: IsPending(t, r) <==> IsPending(s, r);
  }

  /** The bucket after a store, without mention of how eviction picks its victims. */
  ghost predicate Replaced(s: State, t: State, added: Record, victims: set<Record>) {
    && t.pending.Keys <= s.pending.Keys + {added.seqNo}
    && added.seqNo in t.pending && t.pending[added.seqNo] == added.env
    && (forall m :: m in t.pending && m != added.seqNo ==> t.pending[m] == s.pending[m])
    && (forall m :: m in s.pending && m !in t.pending ==> Record(m, s.pending[m]) in victims)
    && (forall r :: r in victims ==> IsPending(s, r))
    && t == s.(pending := t.pending, dropped := t.dropped, appending := s.appending - {added.seqNo},
               stored := s.stored + {added}, evicted := s.evicted + victims)
    && |victims| <= t.dropped - s.dropped
  }

  lemma StoreReplaces(s: State, n: nat, env: Envelope, k: nat)
    requires Enabled(s, Store(n, env, k))
    ensures Replaced(s, Next(s, Store(n, env, k)), Record(n, env.(seqNo := n)), Elements(OldestRecords(s.pending, k)))
  {
    hide Evict, OldestRecords, Oldest;
    OldestRecordsPending(s.pending, k);
    ElementsAtMost(OldestRecords(s.pending, k));
    EvictFrame(s.pending, k);
  }

  lemma ReplacedNumbersFresh(s: State, t: State, added: Record, victims: set<Record>)
    requires Inv(s) && Replaced(s, t, added, victims) && added.seqNo in s.appending && added.env.seqNo == added.seqNo
    ensures NumbersFresh(t)
  {
    hide NothingForged, NothingLost, IsPending, Ticket;
    assert forall r :: r in t.stored ==> r == added || r in s.stored;
    assert t.counter == s.counter && t.reservations == s.reservations && t.appending <= s.appending;
    hide Replaced;
  }

  lemma ReplacedForgesNothing(s: State, t: State, added: Record, victims: set<Record>)
    requires Inv(s) && Replaced(s, t, added, victims)
    ensures NothingForged(t)
  {
    assert forall r :: Batched(t, r) ==> Batched(s, r);
  }

  lemma ReplacedLosesNothing(s: State, t: State, added: Record, victims: set<Record>)
    requires Inv(s) && Replaced(s, t, added, victims) && added.seqNo in s.appending
    ensures NothingLost(t)
  {
    assert |t.evicted| <= |s.evicted| + |victims|;
    forall r | r in t.stored ensures Accounted(t, r) {
      if r != added {
        assert Accounted(s, r) && r.seqNo != added.seqNo;
      }
    }
  }

  lemma StoreKeeps(s: State, n: nat, env: Envelope, k: nat)
    requires Inv(s) && Enabled(s, Store(n, env, k))
    ensures Inv(Next(s, Store(n, env, k)))
  {
    hide NumbersFresh, NothingForged, NothingLost, OldestRecords, Evict, Replaced, Elements;
    var t, added, victims := Next(s, Store(n, env, k)), Record(n, env.(seqNo := n)), Elements(OldestRecords(s.pending, k));
    StoreReplaces(s, n, env, k);
    ReplacedNumbersFresh(s, t, added, victims);
    ReplacedForgesNothing(s, t, added, victims);
    ReplacedLosesNothing(s, t, added, victims);
  }

  lemma AckKeeps(s: State)
    requires Inv(s) && Enabled(s, Ack)
    ensures Inv(Next(s, Ack))
  {
    var t := Next(s, Ack);
    forall r | r in t.stored ensures Accounted(t, r) {
      assert Accounted(s, r);
      if r.seqNo in Numbers(s.publisher.batch) {
        var q :| q in s.publisher.batch && q.seqNo == r.seqNo;
        assert Batched(s, q);
      }
    }
  }

  lemma PeekKeeps(s: State, size: nat)
    requires Inv(s) && Enabled(s, Peek(size))
    ensures Inv(Next(s, Peek(size)))
  {
    hide OldestRecords, Evict, Oldest;
    var t := Next(s, Peek(size));
    OldestRecordsPending(s.pending, size);
    assert forall r :: Batched(t, r) ==> IsPending(s, r);
    assert forall r :: Accounted(s, r) ==> Accounted(t, r);
  }

  /** The remaining steps change neither the bucket nor the numbers in use. */
  lemma OtherKeeps(s: State, step: Step)
    requires Inv(s) && Enabled(s, step)
    requires !step.Reserve? && !step.Store? && !step.Ack? && !step.Peek?
    ensures Inv(Next(s, step))
  {
    var t := Next(s, step);
    assert t.stored == s.stored && t.pending == s.pending && t.evicted == s.evicted && s.bus <= t.bus;
    assert forall r :: Batched(t, r) ==> Batched(s, r);
    assert step.PublishOne? ==> Batched(s, s.publisher.batch[s.publisher.sent]);
    assert forall r :: Accounted(s, r) ==> Accounted(t, r);
  }

  lemma StepKeeps(s: State, step: Step)
    requires Inv(s) && Enabled(s, step) && Next(s, step).reservations <= U64
    ensures Inv(Next(s, step))
  {
    hide Inv;
    match step
    case Reserve => ReserveKeeps(s);
    case Store(n, env, k) => StoreKeeps(s, n, env, k);
    case Ack => AckKeeps(s);
    case Peek(size) => PeekKeeps(s, size);
    case _ => OtherKeeps(s, step);
  }

  lemma {:induction false} ReachKeeps(steps: seq<Step>)
    requires Reach(steps).Some? && Reach(steps).value.reservations <= U64
    ensures Inv(Reach(steps).value)
  {
    if steps != [] {
      var init := steps[..|steps| - 1];
      ReachKeeps(init);
      StepKeeps(Reach(init).value, steps[|steps| - 1]);
    }
  }

  // ----- What the protocol promises.

  /** Stored, but neither pending nor on the bus. */
  ghost function Lost(s: State): set<Record> {
    set r | r in s.stored && !IsPending(s, r) && r !in s.bus
  }

  /** No silent loss. However appends, drains, failures and crashes interleave,
      as long as at most 2^64 numbers are reserved, every record ever stored is
      still pending, or on the bus, or was evicted, and the records lost number
      at most what `dropped` counted over all process lifetimes. */
  lemma NoSilentLoss(steps: seq<Step>)
    requires Reach(steps).Some? && Reach(steps).value.reservations <= U64
    ensures var s := Reach(steps).value;
            && (forall r :: r in s.stored ==> IsPending(s, r) || r in s.bus || r in s.evicted)
            && Lost(s) <= s.evicted
            && |Lost(s)| <= s.droppedBefore + s.dropped
            && s.bus <= s.stored
  {
    ReachKeeps(steps);
    var s := Reach(steps).value;
    hide Reach;
    assert forall r :: r in s.stored ==> Accounted(s, r);
    CardinalityMonotone(Lost(s), s.evicted);
  }

  lemma {:induction false} CardinalityMonotone<T>(a: set<T>, b: set<T>)
    requires a <= b
    ensures |a| <= |b|
  {
    assert b == a + (b - a);
  }

  /** An acknowledgement deletes only records of the flushed batch, each with the
      very contents that are on the bus, whatever was evicted or appended since
      the batch was read. */
  lemma AckExact(steps: seq<Step>)
    requires Reach(steps).Some? && Reach(steps).value.reservations <= U64 && Reach(steps).value.publisher.Flushed?
    ensures var s := Reach(steps).value;
            var t := Next(s, Ack);
            && t.pending.Keys <= s.pending.Keys
            && (forall n :: n in t.pending ==> t.pending[n] == s.pending[n])
            && (forall n :: n in s.pending && n !in t.pending ==>
                  Record(n, s.pending[n]) in s.publisher.batch && Record(n, s.pending[n]) in s.bus)
  {
    ReachKeeps(steps);
    var s := Reach(steps).value;
    var t := Next(s, Ack);
    forall n | n in s.pending && n !in t.pending
      ensures Record(n, s.pending[n]) in s.publisher.batch && Record(n, s.pending[n]) in s.bus
    {
      var q :| q in s.publisher.batch && q.seqNo == n;
      assert Batched(s, q);
    }
  }

  // ----- Beyond 2^64 reservations.

  function Reserves(n: nat): seq<Step> {
    seq(n, _ => Reserve)
  }

  /** The part of the state that says where records are. */
  datatype Ledger = Ledger(pending: map<nat, Envelope>, bus: set<Record>, stored: set<Record>, evicted: set<Record>, counted: nat)

  function Books(s: State): Ledger {
    Ledger(s.pending, s.bus, s.stored, s.evicted, s.droppedBefore + s.dropped)
  }

  lemma ModSucc(a: nat)
    ensures (a % U64 + 1) % U64 == (a + 1) % U64
  {
    var q := a / U64;
    assert a + 1 == q * U64 + (a % U64 + 1);
    if a % U64 + 1 == U64 {
      assert (a + 1) == (q + 1) * U64;
    }
  }

  lemma ReachSnoc(steps: seq<Step>, step: Step)
    requires Reach(steps).Some? && Enabled(Reach(steps).value, step)
    ensures Reach(steps + [step]) == Some(Next(Reach(steps).value, step))
  {
    assert (steps + [step])[..|steps|] == steps;
  }

  lemma NextReserve(s: State)
    ensures var t := Next(s, Reserve);
            Books(t) == Books(s) && t.counter == (s.counter + 1) % U64 && t.counter in t.appending
            && t.reservations == s.reservations + 1
  {
  }

  /** A run of reservations moves the counter and leaves the records alone. */
  lemma {:induction false} ReachReserves(steps: seq<Step>, n: nat)
    requires Reach(steps).Some? && Reach(steps).value.counter < U64
    ensures Reach(steps + Reserves(n)).Some?
    ensures var s, t := Reach(steps).value, Reach(steps + Reserves(n)).value;
            && Books(t) == Books(s)
            && t.counter == (s.counter + n) % U64
            && t.reservations == s.reservations + n
            && (n > 0 ==> t.counter in t.appending)
  {
    hide Reach, Books;
    if n == 0 {
      assert steps + Reserves(0) == steps;
    } else {
      ReachReserves(steps, n - 1);
      ReachSnoc(steps + Reserves(n - 1), Reserve);
      NextReserve(Reach(steps + Reserves(n - 1)).value);
      assert steps + Reserves(n) == steps + Reserves(n - 1) + [Reserve];
      ModSucc(Reach(steps).value.counter + n - 1);
    }
  }

  /** A store that evicts nothing. */
  lemma NextStore(s: State, n: nat, env: Envelope)
    requires n in s.appending && env.seqNo == n
    ensures var t := Next(s, Store(n, env, 0));
            && Books(t) == Books(s).(pending := s.pending[n := env], stored := s.stored + {Record(n, env)})
            && t.counter == s.counter && t.reservations == s.reservations
            && t.publisher == s.publisher && t.buffer == s.buffer
  {
    EvictNone(s.pending);
    assert OldestRecords(s.pending, 0) == [];
    assert s.evicted + Elements(OldestRecords(s.pending, 0)) == s.evicted;
    hide Evict, OldestRecords, Elements;
    assert env.(seqNo := n) == env;
  }

  lemma ReachReserveOnce()
    ensures Reach([Reserve]).Some?
    ensures var s := Reach([Reserve]).value;
            && s.counter == s.reservations == 1 && 1 in s.appending && Books(s) == Ledger(map[], {}, {}, {}, 0)
            && s.publisher.Idle? && s.buffer == {}
  {
    assert [Reserve][..0] == [];
  }

  /** A run that stores a record under number 1. */
  lemma ReachFirstOne(first: Envelope) returns (steps: seq<Step>)
    requires first.seqNo == 1
    ensures Reach(steps).Some? && Reach(steps).value.counter == Reach(steps).value.reservations == 1
    ensures Books(Reach(steps).value) == Ledger(map[1 := first], {}, {Record(1, first)}, {}, 0)
    ensures Reach(steps).value.publisher.Idle? && Reach(steps).value.buffer == {}
  {
    hide Reach, Next;
    ReachReserveOnce();
    steps := [Reserve];
    NextStore(Reach(steps).value, 1, first);
    ReachSnoc(steps, Store(1, first, 0));
    steps := steps + [Store(1, first, 0)];
  }

  /** The bound is exact: for every larger number of reservations there is a run
      in which the counter wraps, a number is reused, and a record disappears
      without being evicted or reaching the bus and without being counted. */
  lemma WrapLosesRecord(n: nat) returns (steps: seq<Step>)
    requires n > U64
    ensures Reach(steps).Some? && Reach(steps).value.reservations == n
    ensures var s := Reach(steps).value;
            s.bus == {} && s.evicted == {} && s.droppedBefore + s.dropped == 0 && Lost(s) != {}
  {
    hide Reach, Reserves, Next, Lost;
    var first := Envelope("a", 1, [], 1, None, None);
    var second := Envelope("b", 1, [], 1, None, None);
    steps := ReachFirstOne(first);
    ReachReserves(steps, U64);
    steps := steps + Reserves(U64);
    NextStore(Reach(steps).value, 1, second);
    ReachSnoc(steps, Store(1, second, 0));
    steps := steps + [Store(1, second, 0)];
    ReachReserves(steps, n - U64 - 1);
    steps := steps + Reserves(n - U64 - 1);
    LostFromBooks(Reach(steps).value, first);
  }

  lemma LostFromBooks(s: State, first: Envelope)
    requires 1 in Books(s).pending && Books(s).pending[1] != first && Record(1, first) in Books(s).stored && Books(s).bus == {}
    ensures Record(1, first) in Lost(s)
  {
  }

  // ----- What a successful flush must mean.

  lemma OneOldest(n: nat, e: Envelope)
    ensures OldestRecords(map[n := e], 1) == [Record(n, e)]
  {
    var pending := map[n := e];
    assert pending.Keys == {n};
    var o := Oldest(pending.Keys, 1);
    assert |o| == 1 && o[0] in o;
  }

  /** One record is stored, and the publisher stands here. */
  ghost predicate FirstAlone(s: State, first: Envelope, publisher: Publisher) {
    Books(s) == Ledger(map[1 := first], {}, {Record(1, first)}, {}, 0) && s.publisher == publisher
  }

  lemma PeeksFirst(s: State, first: Envelope)
    requires FirstAlone(s, first, Idle)
    ensures FirstAlone(Next(s, Peek(1)), first, Publishing([Record(1, first)], 0))
  {
    OneOldest(1, first);
    hide OldestRecords;
  }

  lemma PublishesFirst(s: State, first: Envelope)
    requires FirstAlone(s, first, Publishing([Record(1, first)], 0))
    ensures Enabled(s, PublishOne) && FirstAlone(Next(s, PublishOne), first, Publishing([Record(1, first)], 1))
  {
  }

  lemma LinkBreaks(s: State, first: Envelope)
    requires FirstAlone(s, first, Publishing([Record(1, first)], 1))
    ensures var t := Next(s, LinkLost); FirstAlone(t, first, Publishing([Record(1, first)], 1)) && t.buffer == {}
  {
  }

  /** That a successful flush covers the whole batch cannot be dropped from the
      protocol. There is a run in which the link breaks with the batch in the
      client's buffer; a flush that reported success there, followed by the
      acknowledgement, would lose the record without an eviction. */
  lemma UncoveredFlushLoses() returns (steps: seq<Step>)
    ensures Reach(steps).Some?
    ensures var s := Reach(steps).value;
            && s.publisher.Publishing? && s.publisher.sent == |s.publisher.batch| && !Enabled(s, FlushOk)
            && var t := Next(s.(publisher := Flushed(s.publisher.batch)), Ack);
               Lost(t) != {} && t.evicted == {} && t.droppedBefore + t.dropped == 0
  {
    hide Reach, Next, Lost;
    var first := Envelope("a", 1, [], 1, None, None);
    steps := ReachFirstOne(first);
    PeeksFirst(Reach(steps).value, first);
    ReachSnoc(steps, Peek(1));
    steps := steps + [Peek(1)];
    PublishesFirst(Reach(steps).value, first);
    ReachSnoc(steps, PublishOne);
    steps := steps + [PublishOne];
    LinkBreaks(Reach(steps).value, first);
    ReachSnoc(steps, LinkLost);
    steps := steps + [LinkLost];
    AckedAnyway(Reach(steps).value, first);
  }

  lemma AckedAnyway(s: State, first: Envelope)
    requires FirstAlone(s, first, Publishing([Record(1, first)], 1)) && s.buffer == {}
    ensures !Enabled(s, FlushOk)
    ensures var t := Next(s.(publisher := Flushed(s.publisher.batch)), Ack);
            Record(1, first) in Lost(t) && t.evicted == {} && t.droppedBefore + t.dropped == 0
  {
    var r := Record(1, first);
    assert r in Elements(s.publisher.batch);
    assert r in [r] && 1 in Numbers([r]);
  }

  // ----- A run in which a later number overtakes an earlier one.

  /** One round of the drain loop over a single record. */
  lemma SendOne(steps: seq<Step>, s: State, n: nat, e: Envelope) returns (more: seq<Step>)
    requires Reach(steps) == Some(s) && s.publisher.Idle? && s.buffer == {} && s.pending == map[n := e]
    ensures Reach(more) == Some(s.(pending := map[], bus := s.bus + {Record(n, e)}))
  {
    hide Reach, OldestRecords;
    var r := Record(n, e);
    OneOldest(n, e);
    ReachSnoc(steps, Peek(1));
    ReachSnoc(steps + [Peek(1)], PublishOne);
    var sent := s.(publisher := Publishing([r], 1), buffer := {r});
    assert Reach(steps + [Peek(1)] + [PublishOne]) == Some(sent);
    ReachSnoc(steps + [Peek(1)] + [PublishOne], FlushOk);
    more := steps + [Peek(1)] + [PublishOne] + [FlushOk];
    assert Reach(more) == Some(s.(publisher := Flushed([r]), bus := s.bus + {r}));
    ReachSnoc(more, Ack);
    more := more + [Ack];
    assert r in [r] && s.pending - Numbers([r]) == map[];
  }

  lemma ReserveTo(steps: seq<Step>, s: State, t: State)
    requires Reach(steps) == Some(s) && t.counter == s.counter + 1 < U64
    requires t.appending == s.appending + {t.counter} && t.reservations == s.reservations + 1
    requires t == s.(counter := t.counter, appending := t.appending, reservations := t.reservations)
    ensures Reach(steps + [Reserve]) == Some(t)
  {
    hide Reach;
    ReachSnoc(steps, Reserve);
    assert (s.counter + 1) % U64 == s.counter + 1;
  }

  lemma StoreTo(steps: seq<Step>, s: State, n: nat, e: Envelope, t: State)
    requires Reach(steps) == Some(s) && n in s.appending && e.seqNo == n
    requires t.pending == s.pending[n := e] && t.appending == s.appending - {n} && t.stored == s.stored + {Record(n, e)}
    requires t == s.(pending := t.pending, appending := t.appending, stored := t.stored)
    ensures Reach(steps + [Store(n, e, 0)]) == Some(t)
  {
    hide Reach;
    ReachSnoc(steps, Store(n, e, 0));
    EvictNone(s.pending);
    assert OldestRecords(s.pending, 0) == [];
    assert s.evicted + Elements(OldestRecords(s.pending, 0)) == s.evicted;
    hide Evict, OldestRecords, Elements;
    assert e.(seqNo := n) == e;
  }

  /** Where such a run stands. */
  function Standing(counter: nat, pending: map<nat, Envelope>, appending: set<nat>, bus: set<Record>, stored: set<Record>): State {
    State(counter, pending, 0, appending, Idle, {}, bus, counter, stored, {}, 0)
  }

  /** The first record is on the bus, and the next two numbers are reserved. */
  lemma FirstIsSent(first: Envelope) returns (steps: seq<Step>)
    requires first.seqNo == 1
    ensures Reach(steps) == Some(Standing(3, map[], {2, 3}, {Record(1, first)}, {Record(1, first)}))
  {
    hide Reach;
    var a := Record(1, first);
    ReachNothing();
    ReserveTo([], Standing(0, map[], {}, {}, {}), Standing(1, map[], {1}, {}, {}));
    steps := [] + [Reserve];
    StoreTo(steps, Standing(1, map[], {1}, {}, {}), 1, first, Standing(1, map[1 := first], {}, {}, {a}));
    steps := steps + [Store(1, first, 0)];
    steps := SendOne(steps, Standing(1, map[1 := first], {}, {}, {a}), 1, first);
    assert {} + {a} == {a};
    ReserveTo(steps, Standing(1, map[], {}, {a}, {a}), Standing(2, map[], {2}, {a}, {a}));
    steps := steps + [Reserve];
    ReserveTo(steps, Standing(2, map[], {2}, {a}, {a}), Standing(3, map[], {2, 3}, {a}, {a}));
    steps := steps + [Reserve];
  }

  lemma ReachNothing()
    ensures Reach([]) == Some(Standing(0, map[], {}, {}, {}))
  {
  }

  /** Three numbers are reserved; the first and the third are stored and reach the
      bus before the second is stored. */
  lemma ThirdOvertakes(first: Envelope, second: Envelope, third: Envelope) returns (steps: seq<Step>)
    requires first.seqNo == 1 && second.seqNo == 2 && third.seqNo == 3
    ensures var a, b, c := Record(1, first), Record(2, second), Record(3, third);
            Reach(steps) == Some(Standing(3, map[2 := second], {}, {a, c}, {a, b, c}))
  {
    hide Reach;
    var a, b, c := Record(1, first), Record(2, second), Record(3, third);
    steps := FirstIsSent(first);
    StoreTo(steps, Standing(3, map[], {2, 3}, {a}, {a}), 3, third, Standing(3, map[3 := third], {2}, {a}, {a, c}));
    steps := steps + [Store(3, third, 0)];
    steps := SendOne(steps, Standing(3, map[3 := third], {2}, {a}, {a, c}), 3, third);
    assert {a} + {c} == {a, c};
    StoreTo(steps, Standing(3, map[], {2}, {a, c}, {a, c}), 2, second, Standing(3, map[2 := second], {}, {a, c}, {a, b, c}));
    steps := steps + [Store(2, second, 0)];
  }
}
