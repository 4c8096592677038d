/** The sensor's code against the protocol: whatever order the transactions of
    concurrent appends and of the drain loop come in, and wherever calls fail or
    the process stops, what the spool and the bus hold is a state that the
    protocol of module `Delivery` reaches. */
module Sensors {
  import opened Basics
  import opened Events
  import opened BigEndian
  import opened PendingLog
  import opened Spools
  import opened Transport
  import Delivery

  type Marshal = Envelope -> Blob

  /** Where the drain loop stands. A batch is intact while nothing published for it
      was lost on the way. */
  datatype Phase = Resting | Sending(batch: Batch, sent: nat, intact: bool) | Confirmed(batch: Batch)

  /** Records as the bytes they are stored as. */
  ghost function Rendered(pending: map<nat, Envelope>, marshal: Marshal): map<nat, Blob> {
    map n | n in pending :: marshal(pending[n])
  }

  ghost function Blobs(rs: seq<Delivery.Record>, marshal: Marshal): (blobs: seq<Blob>)
    ensures |blobs| == |rs|
  {
    seq(|rs|, i requires 0 <= i < |rs| => marshal(rs[i].env))
  }

  ghost function SeqNos(rs: seq<Delivery.Record>): seq<nat> {
    seq(|rs|, i requires 0 <= i < |rs| => rs[i].seqNo)
  }

  lemma RenderedEvict(pending: map<nat, Envelope>, marshal: Marshal, k: nat)
    ensures Rendered(pending, marshal).Keys == pending.Keys
    ensures Rendered(Evict(pending, k), marshal) == Evict(Rendered(pending, marshal), k)
  {
    hide Oldest;
    assert Rendered(pending, marshal).Keys == pending.Keys;
  }

  /** The bytes of the bucket after a store. */
  lemma RenderedStore(pending: map<nat, Envelope>, marshal: Marshal, k: nat, n: nat, e: Envelope)
    ensures |Rendered(pending, marshal).Keys| == |pending.Keys|
    ensures Rendered(Evict(pending, k)[n := e], marshal) == Evict(Rendered(pending, marshal), k)[n := marshal(e)]
  {
    hide Rendered, Evict;
    RenderedEvict(pending, marshal, k);
    RenderedPut(Evict(pending, k), marshal, n, e);
  }

  lemma RenderedPut(pending: map<nat, Envelope>, marshal: Marshal, n: nat, e: Envelope)
    ensures Rendered(pending[n := e], marshal) == Rendered(pending, marshal)[n := marshal(e)]
  {
  }

  lemma RenderedDelete(pending: map<nat, Envelope>, marshal: Marshal, gone: set<nat>)
    ensures Rendered(pending - gone, marshal) == Rendered(pending, marshal) - gone
  {
  }

  lemma BlobsConcat(a: seq<Delivery.Record>, b: seq<Delivery.Record>, marshal: Marshal)
    ensures Blobs(a + b, marshal) == Blobs(a, marshal) + Blobs(b, marshal)
  {
  }

  lemma BlobsSplit(a: seq<Delivery.Record>, k: nat, marshal: Marshal)
    requires k <= |a|
    ensures Blobs(a, marshal)[..k] == Blobs(a[..k], marshal) && Blobs(a, marshal)[k..] == Blobs(a[k..], marshal)
  {
  }

  /** A batch of the spool holds these records. */
  ghost predicate Holds(batch: Batch, rs: seq<Delivery.Record>, marshal: Marshal) {
    && batch.blobs == Blobs(rs, marshal) && Numbers(batch.keys) == SeqNos(rs) && |batch.keys| == |rs|
    && forall i :: 0 <= i < |batch.keys| ==> |batch.keys[i]| == 8
  }

  /** What a peek returns is what the protocol's peek takes. */
  lemma PeekHolds(events: map<seq<Byte>, Blob>, pending: map<nat, Envelope>, marshal: Marshal, batch: Batch, size: nat)
    requires AllKeysEightBytes(events) && Numbered(events) == Rendered(pending, marshal)
    requires IsBatch(events, batch) && Numbers(batch.keys) == Oldest(Numbered(events).Keys, size)
    ensures Holds(batch, Delivery.OldestRecords(pending, size), marshal)
  {
    hide Oldest, Get, Put;
    RenderedEvict(pending, marshal, 0);
    var rs, o := Delivery.OldestRecords(pending, size), Oldest(pending.Keys, size);
    assert |Numbers(batch.keys)| == |batch.keys|;
    assert SeqNos(rs) == o;
    forall i | 0 <= i < |batch.keys| ensures batch.blobs[i] == Blobs(rs, marshal)[i] {
      KeyNumber(batch.keys[i]);
      assert o[i] in o && Get(batch.keys[i]) == o[i];
      assert Numbered(events)[o[i]] == batch.blobs[i];
    }
  }

  lemma NumbersOfRecords(rs: seq<Delivery.Record>)
    ensures Elements(SeqNos(rs)) == Delivery.Numbers(rs)
  {
    forall i | 0 <= i < |rs| ensures rs[i].seqNo in Elements(SeqNos(rs)) {
      assert SeqNos(rs)[i] == rs[i].seqNo;
    }
    forall n | n in SeqNos(rs) ensures n in Delivery.Numbers(rs) {
      var i :| 0 <= i < |rs| && SeqNos(rs)[i] == n;
      assert rs[i] in rs;
    }
  }

  /** Records leaving the buffer for the bus one by one. */
  lemma {:induction false} Arrivals(steps: seq<Delivery.Step>, s: Delivery.State, rs: seq<Delivery.Record>)
    returns (more: seq<Delivery.Step>)
    requires Delivery.Reach(steps) == Some(s) && Elements(rs) <= s.bus + s.buffer
    ensures steps <= more
    ensures Delivery.Reach(more) == Some(s.(bus := s.bus + Elements(rs), buffer := s.buffer - Elements(rs)))
  {
    hide Delivery.Reach;
    if rs == [] {
      more := steps;
      assert s.bus + Elements(rs) == s.bus && s.buffer - Elements(rs) == s.buffer;
    } else {
      var init, last := rs[..|rs| - 1], rs[|rs| - 1];
      assert rs == init + [last];
      assert Elements(rs) == Elements(init) + {last};
      more := Arrivals(steps, s, init);
      var t := s.(bus := s.bus + Elements(init), buffer := s.buffer - Elements(init));
      if last in t.buffer {
        Delivery.ReachSnoc(more, Delivery.Arrives(last));
        more := more + [Delivery.Arrives(last)];
        assert t.bus + {last} == s.bus + Elements(rs) && t.buffer - {last} == s.buffer - Elements(rs);
      } else {
        assert last in t.bus;
        assert t.bus == s.bus + Elements(rs) && t.buffer == s.buffer - Elements(rs);
      }
    }
  }

  // ----- The two sides of a protocol state, and how each step moves them.

  datatype SpoolSide = SpoolSide(
    counter: nat, pending: map<nat, Envelope>, dropped: nat, appending: set<nat>, history: History)

  datatype History = History(reservations: nat, stored: set<Delivery.Record>, evicted: set<Delivery.Record>, droppedBefore: nat)

  datatype LinkSide = LinkSide(publisher: Delivery.Publisher, buffer: set<Delivery.Record>, bus: set<Delivery.Record>)

  function Spooled(s: Delivery.State): SpoolSide {
    SpoolSide(s.counter, s.pending, s.dropped, s.appending, History(s.reservations, s.stored, s.evicted, s.droppedBefore))
  }

  function Linked(s: Delivery.State): LinkSide {
    LinkSide(s.publisher, s.buffer, s.bus)
  }

  /** These records are on the bus and in its buffer. A record that is published
      again while it is on the bus already may be in both. */
  ghost predicate Carried(l: LinkSide, onBus: seq<Delivery.Record>, buffered: seq<Delivery.Record>) {
    Elements(onBus) == l.bus && l.buffer <= Elements(buffered) <= l.bus + l.buffer
  }

  /** The drain loop stands where the protocol's publisher does. */
  ghost predicate Drains(l: LinkSide, phase: Phase, marshal: Marshal) {
    match l.publisher
    case Idle => phase == Resting
    case Publishing(rs, n) => phase.Sending? && phase.sent == n <= |rs| && Holds(phase.batch, rs, marshal)
                              && (phase.intact ==> Elements(rs[..n]) <= l.bus + l.buffer)
    case Flushed(rs) => phase.Confirmed? && Holds(phase.batch, rs, marshal)
  }

  lemma ReserveSteps(s: Delivery.State)
    ensures var n := Following(s.counter);
            Spooled(Delivery.Next(s, Delivery.Reserve))
            == Spooled(s).(counter := n, appending := s.appending + {n},
                           history := Spooled(s).history.(reservations := s.reservations + 1))
    ensures Linked(Delivery.Next(s, Delivery.Reserve)) == Linked(s)
  {
  }

  /** The spool's side after a storing transaction. */
  ghost function AfterStore(p: SpoolSide, n: nat, stamped: Envelope, k: nat, ok: bool): SpoolSide {
    if ok then
      SpoolSide(p.counter, Evict(p.pending, k)[n := stamped], p.dropped + k, p.appending - {n},
                p.history.(stored := p.history.stored + {Delivery.Record(n, stamped)},
                           evicted := p.history.evicted + Elements(Delivery.OldestRecords(p.pending, k))))
    else p.(dropped := p.dropped + k, appending := p.appending - {n})
  }

  function StoreStep(n: nat, env: Envelope, k: nat, ok: bool): Delivery.Step {
    if ok then Delivery.Store(n, env, k) else Delivery.StoreFails(n, k)
  }

  lemma StoreSteps(s: Delivery.State, n: nat, env: Envelope, k: nat, ok: bool)
    requires n in Spooled(s).appending && k <= |Spooled(s).pending.Keys|
    ensures Delivery.Enabled(s, StoreStep(n, env, k, ok))
    ensures var t := Delivery.Next(s, StoreStep(n, env, k, ok));
            Spooled(t) == AfterStore(Spooled(s), n, env.(seqNo := n), k, ok) && Linked(t) == Linked(s)
  {
    hide Evict, Delivery.OldestRecords, Elements;
  }

  lemma PeekSteps(
    s: Delivery.State, batch: Batch, size: nat, onBus: seq<Delivery.Record>, buffered: seq<Delivery.Record>, marshal: Marshal)
    requires s.publisher.Idle? && Holds(batch, Delivery.OldestRecords(s.pending, size), marshal)
    requires Carried(Linked(s), onBus, buffered)
    ensures var t := Delivery.Next(s, Delivery.Peek(size));
            && Spooled(t) == Spooled(s) && Carried(Linked(t), onBus, buffered)
            && Drains(Linked(t), if batch.keys == [] then Resting else Sending(batch, 0, true), marshal)
  {
    hide Delivery.OldestRecords;
    assert Elements<Delivery.Record>([]) == {};
  }

  lemma PublishSteps(
    s: Delivery.State, batch: Batch, sent: nat, intact: bool, onBus: seq<Delivery.Record>, buffered: seq<Delivery.Record>,
    marshal: Marshal)
    requires Carried(Linked(s), onBus, buffered) && Drains(Linked(s), Sending(batch, sent, intact), marshal)
    requires sent < |batch.blobs|
    ensures s.publisher.Publishing? && s.publisher.sent == sent < |s.publisher.batch|
    ensures var r := s.publisher.batch[sent];
            var t, u := Delivery.Next(s, Delivery.PublishOne), Delivery.Next(s, Delivery.PublishFails);
            && Blobs([r], marshal) == [batch.blobs[sent]]
            && Spooled(t) == Spooled(s) == Spooled(u)
            && Carried(Linked(t), onBus, buffered + [r]) && Drains(Linked(t), Sending(batch, sent + 1, intact), marshal)
            && Carried(Linked(u), onBus, buffered) && Drains(Linked(u), Resting, marshal)
  {
    var rs := s.publisher.batch;
    assert Blobs([rs[sent]], marshal) == [Blobs(rs, marshal)[sent]];
    hide Blobs, Numbers, SeqNos;
    assert Elements(buffered + [rs[sent]]) == Elements(buffered) + {rs[sent]};
    assert Elements(rs[..sent + 1]) == Elements(rs[..sent]) + {rs[sent]};
  }

  /** Records reaching the bus move neither the publisher nor the spool. */
  lemma ArriveSteps(
    s: Delivery.State, phase: Phase, onBus: seq<Delivery.Record>, arrived: seq<Delivery.Record>,
    rest: seq<Delivery.Record>, marshal: Marshal)
    requires Carried(Linked(s), onBus, arrived + rest) && Drains(Linked(s), phase, marshal)
    ensures Elements(arrived) <= s.bus + s.buffer
    ensures var t := s.(bus := s.bus + Elements(arrived), buffer := s.buffer - Elements(arrived));
            Spooled(t) == Spooled(s) && Carried(Linked(t), onBus + arrived, rest) && Drains(Linked(t), phase, marshal)
  {
    hide Holds;
    assert Elements(onBus + arrived) == Elements(onBus) + Elements(arrived);
    assert Elements(arrived + rest) == Elements(arrived) + Elements(rest);
  }

  /** A batch is no longer intact once the write buffer is lost. */
  function Broken(phase: Phase): Phase {
    if phase.Sending? then phase.(intact := false) else phase
  }

  lemma BreakSteps(s: Delivery.State, phase: Phase, onBus: seq<Delivery.Record>, buffered: seq<Delivery.Record>, marshal: Marshal)
    requires Carried(Linked(s), onBus, buffered) && Drains(Linked(s), phase, marshal)
    ensures var t := Delivery.Next(s, Delivery.LinkLost);
            Spooled(t) == Spooled(s) && Carried(Linked(t), onBus, []) && Drains(Linked(t), Broken(phase), marshal)
  {
    hide Holds;
    assert Elements<Delivery.Record>([]) == {};
  }

  lemma FlushOkSteps(s: Delivery.State, batch: Batch, sent: nat, onBus: seq<Delivery.Record>, marshal: Marshal)
    requires Carried(Linked(s), onBus, []) && Drains(Linked(s), Sending(batch, sent, true), marshal) && sent == |batch.blobs|
    ensures Delivery.Enabled(s, Delivery.FlushOk)
    ensures var t := Delivery.Next(s, Delivery.FlushOk);
            Spooled(t) == Spooled(s) && Carried(Linked(t), onBus, []) && Drains(Linked(t), Confirmed(batch), marshal)
  {
    var rs := s.publisher.batch;
    assert |batch.blobs| == |rs|;
    hide Blobs, Numbers, SeqNos;
    assert rs[..sent] == rs;
    assert Elements<Delivery.Record>([]) == {};
  }

  lemma FlushFailsSteps(
    s: Delivery.State, phase: Phase, onBus: seq<Delivery.Record>, buffered: seq<Delivery.Record>, marshal: Marshal)
    requires Carried(Linked(s), onBus, buffered) && Drains(Linked(s), phase, marshal)
    requires phase.Sending? && phase.sent == |phase.batch.blobs|
    ensures Delivery.Enabled(s, Delivery.FlushFails)
    ensures var t := Delivery.Next(s, Delivery.FlushFails);
            Spooled(t) == Spooled(s) && Carried(Linked(t), onBus, buffered) && Drains(Linked(t), Resting, marshal)
  {
    assert |phase.batch.blobs| == |s.publisher.batch|;
    hide Holds, Elements;
  }

  lemma AckSteps(s: Delivery.State, batch: Batch, onBus: seq<Delivery.Record>, buffered: seq<Delivery.Record>, marshal: Marshal)
    requires Carried(Linked(s), onBus, buffered) && Drains(Linked(s), Confirmed(batch), marshal)
    ensures s.publisher.Flushed? && Holds(batch, s.publisher.batch, marshal) && Elements(onBus) == s.bus
    ensures var t, u := Delivery.Next(s, Delivery.Ack), Delivery.Next(s, Delivery.AckFails);
            && Spooled(t) == Spooled(s).(pending := s.pending - Delivery.Numbers(s.publisher.batch))
            && Spooled(u) == Spooled(s)
            && Carried(Linked(t), onBus, buffered) && Drains(Linked(t), Resting, marshal)
            && Carried(Linked(u), onBus, buffered) && Drains(Linked(u), Resting, marshal)
  {
    hide Holds, Elements;
  }

  lemma CrashSteps(s: Delivery.State, onBus: seq<Delivery.Record>, buffered: seq<Delivery.Record>, marshal: Marshal)
    requires Carried(Linked(s), onBus, buffered)
    ensures var t, h := Delivery.Next(s, Delivery.Crash), Spooled(s).history;
            && Spooled(t) == SpoolSide(s.counter, s.pending, 0, {}, h.(droppedBefore := h.droppedBefore + s.dropped))
            && Carried(Linked(t), onBus, []) && Drains(Linked(t), Resting, marshal)
  {
  }

  /** What the sensor holds, and the history of what its storing transactions
      committed. */
  datatype Snapshot = Snapshot(
    counter: nat, pending: map<nat, Blob>, dropped: nat, appending: set<nat>, phase: Phase, buffer: seq<Blob>, bus: seq<Blob>,
    stored: set<Delivery.Record>)

  /** The `size` oldest pending records as keys and blobs. */
  ghost predicate OldestBatch(pending: map<nat, Blob>, size: nat, batch: Batch) {
    && Numbers(batch.keys) == Oldest(pending.Keys, size) && |batch.blobs| == |batch.keys|
    && forall i :: 0 <= i < |batch.keys| ==>
         |batch.keys[i]| == 8 && Get(batch.keys[i]) in pending && batch.blobs[i] == pending[Get(batch.keys[i])]
  }

  lemma BatchIsOldest(events: map<seq<Byte>, Blob>, size: nat, batch: Batch)
    requires IsBatch(events, batch) && Numbers(batch.keys) == Oldest(Numbered(events).Keys, size)
    ensures OldestBatch(Numbered(events), size, batch)
  {
    hide Oldest, Get, Key;
    forall i | 0 <= i < |batch.keys|
      ensures Get(batch.keys[i]) in Numbered(events) && batch.blobs[i] == Numbered(events)[Get(batch.keys[i])]
    {
      KeyNumber(batch.keys[i]);
    }
  }

  class Sensor {
    const spool: Spool
    const link: Link
    const batchSize: int
    const marshal: Marshal
    /** Numbers reserved by appends whose record is not stored yet. */
    var appending: set<nat>
    var phase: Phase
    /** The run of the protocol so far, where it led, and the records behind the
        bytes on the bus and in its buffer. */
    ghost var steps: seq<Delivery.Step>
    ghost var state: Delivery.State
    ghost var onBus: seq<Delivery.Record>
    ghost var buffered: seq<Delivery.Record>

    /** The spool holds what the protocol's does. */
    ghost predicate SpoolAgrees(p: SpoolSide)
      reads this`appending, spool
    {
      && spool.Valid() && spool.Counter() == p.counter && spool.dropped == p.dropped
      && spool.Pending() == Rendered(p.pending, marshal)
      && appending == p.appending && forall n :: n in appending ==> n < U64
    }

    /** The link and the drain loop stand where the protocol's do. */
    ghost predicate LinkAgrees(l: LinkSide)
      reads this`phase, this`onBus, this`buffered, link
    {
      && link.bus == Blobs(onBus, marshal) && link.buffer == Blobs(buffered, marshal)
      && Carried(l, onBus, buffered) && Drains(l, phase, marshal)
    }

    ghost predicate Valid()
      reads this, spool, link
    {
      Delivery.Reach(steps) == Some(state) && SpoolAgrees(Spooled(state)) && LinkAgrees(Linked(state))
    }

    ghost function View(): Snapshot
      reads this, spool, link
    {
      Snapshot(spool.Counter(), spool.Pending(), spool.dropped, appending, phase, link.buffer, link.bus,
               Spooled(state).history.stored)
    }

    constructor (maxBytes: int, batchSize: int, marshal: Marshal)
      ensures Valid() && fresh(spool) && fresh(link) && steps == []
      ensures View() == Snapshot(0, map[], 0, {}, Resting, [], [], {})
    {
      spool := new Spool(maxBytes);
      link := new Link();
      this.batchSize, this.marshal := batchSize, marshal;
      appending, phase := {}, Resting;
      steps, state, onBus, buffered := [], Delivery.INITIAL, [], [];
      new;
      NothingYet(marshal);
    }

    lemma KeysSound()
      requires Valid()
      ensures AllKeysEightBytes(spool.events)
    {
    }

    /** One step of the protocol is taken. */
    ghost method Take(step: Delivery.Step)
      requires Delivery.Reach(steps) == Some(state) && Delivery.Enabled(state, step)
      modifies this`steps, this`state
      ensures Delivery.Reach(steps) == Some(state) && state == Delivery.Next(old(state), step)
      ensures steps == old(steps) + [step]
    {
      hide Delivery.Reach, Delivery.Next, Delivery.Enabled;
      Delivery.ReachSnoc(steps, step);
      state, steps := Delivery.Next(state, step), steps + [step];
    }

    /** The reserving transaction of an append. */
    method Reserve(commits: bool)
      requires Valid()
      modifies this`appending, this`steps, this`state, spool`meta
      ensures Valid() && steps == old(steps) + if commits then [Delivery.Reserve] else []
      ensures var n := Following(old(spool.Counter()));
              View() == if commits then old(View()).(counter := n, appending := old(appending) + {n}) else old(View())
    {
      hide LinkAgrees, Delivery.Reach, Delivery.Next, Rendered, Following, Numbered;
      var n := spool.NextSeq(commits);
      if n.Some? {
        ReserveSteps(state);
        Take(Delivery.Reserve);
        appending := appending + {n.value};
      }
    }

    /** The storing transaction of an append. It evicts the `k` oldest records, as
        `dropped` counts; when it fails, the records stay and the count does not. */
    method Store(n: nat, env: Envelope, size: nat -> int, deleteFails: nat -> bool, commits: bool) returns (ok: bool, ghost k: nat)
      requires Valid() && n in appending
      modifies this`appending, this`steps, this`state, spool`events, spool`dropped
      ensures Valid() && steps == old(steps) + [StoreStep(n, env, k, ok)]
      ensures Stores(old(View()), View(), n, env, k, ok)
      ensures spool.Evicts(size, deleteFails, commits, |marshal(env.(seqNo := n))|, old(spool.Pending()), k, ok)
    {
      hide LinkAgrees, SpoolAgrees, Delivery.Reach, Delivery.Next, Delivery.Enabled, Evict, Elements, Spooled, Linked,
        Spool.Pending, Spool.Counter, Spool.Evicts, Delivery.OldestRecords;
      NumbersAgree(Spooled(state));
      ok, k := Commit(n, env.(seqNo := n), size, deleteFails, commits, Spooled(state));
      StoreSteps(state, n, env, k, ok);
      Take(StoreStep(n, env, k, ok));
    }

    lemma NumbersAgree(p: SpoolSide)
      requires SpoolAgrees(p)
      ensures p.appending == appending && |p.pending.Keys| == |spool.Pending().Keys|
    {
      RenderedEvict(p.pending, marshal, 0);
    }

    /** The transaction itself, on the spool. */
    method Commit(n: nat, stamped: Envelope, size: nat -> int, deleteFails: nat -> bool, commits: bool, ghost p: SpoolSide)
      returns (ok: bool, ghost k: nat)
      requires SpoolAgrees(p) && n in appending
      modifies this`appending, spool`events, spool`dropped
      ensures SpoolAgrees(AfterStore(p, n, stamped, k, ok)) && k <= |p.pending.Keys|
      ensures appending == old(appending) - {n} && spool.dropped == old(spool.dropped) + k
      ensures spool.Pending() == if ok then Evict(old(spool.Pending()), k)[n := marshal(stamped)] else old(spool.Pending())
      ensures spool.Evicts(size, deleteFails, commits, |marshal(stamped)|, old(spool.Pending()), k, ok)
    {
      hide SpoolAgrees, AfterStore, Rendered, Evict, AllKeysEightBytes, Spool.Pending, Spool.Counter, Spool.Evicts;
      NumbersAgree(p);
      Agreeing(p);
      ghost var was := spool.dropped;
      ok := spool.Store(n, marshal(stamped), size, deleteFails, commits);
      k := spool.dropped - was;
      appending := appending - {n};
      AgreesAfter(p, n, stamped, k, ok);
    }

    lemma Agreeing(p: SpoolSide)
      requires SpoolAgrees(p)
      ensures spool.Valid() && spool.Counter() == p.counter && spool.dropped == p.dropped
      ensures spool.Pending() == Rendered(p.pending, marshal) && appending == p.appending && forall n :: n in appending ==> n < U64
    {
    }

    lemma AgreesAfter(p: SpoolSide, n: nat, stamped: Envelope, k: nat, ok: bool)
      requires spool.Valid() && spool.Counter() == p.counter && spool.dropped == p.dropped + k && appending == p.appending - {n}
      requires forall m :: m in appending ==> m < U64
      requires spool.Pending() ==
        if ok then Evict(Rendered(p.pending, marshal), k)[n := marshal(stamped)] else Rendered(p.pending, marshal)
      ensures SpoolAgrees(AfterStore(p, n, stamped, k, ok))
    {
      hide Rendered, Evict, Elements, Spool.Pending, Spool.Counter, Delivery.OldestRecords;
      RenderedStore(p.pending, marshal, k, n, stamped);
    }

    /** What storing does: the `k` oldest records give way to the new one, which
        enters the history; a failure keeps the records and both histories. */
    ghost predicate Stores(s: Snapshot, t: Snapshot, n: nat, env: Envelope, k: nat, ok: bool) {
      var stamped := env.(seqNo := n);
      t == if ok then
             s.(pending := Evict(s.pending, k)[n := marshal(stamped)], dropped := s.dropped + k, appending := s.appending - {n},
                stored := s.stored + {Delivery.Record(n, stamped)})
           else s.(dropped := s.dropped + k, appending := s.appending - {n})
    }

    /** The start of a drain round. */
    method Peek(readable: bool) returns (batch: Option<Batch>)
      requires Valid() && phase.Resting?
      modifies this`phase, this`steps, this`state
      ensures Valid() && old(steps) <= steps
      ensures batch.Some? <==> readable
      ensures batch.Some? ==>
        IsBatch(spool.events, batch.value) && Numbers(batch.value.keys) == Oldest(spool.Pending().Keys, BatchLimit())
      ensures if batch.None? then View() == old(View()) else Peeked(old(View()), View(), batch.value)
    {
      hide Delivery.Reach, Delivery.Next, Holds, Rendered, Blobs, Oldest, Numbered, Delivery.OldestRecords, Carried, Drains;
      batch := spool.Peek(batchSize, readable);
      if batch.None? {
        return;
      }
      RestsIdle(Linked(state), marshal);
      BatchIsOldest(spool.events, BatchLimit(), batch.value);
      PeekHolds(spool.events, state.pending, marshal, batch.value, BatchLimit());
      PeekSteps(state, batch.value, BatchLimit(), onBus, buffered, marshal);
      Take(Delivery.Peek(BatchLimit()));
      if |batch.value.keys| > 0 {
        phase := Sending(batch.value, 0, true);
      }
    }

    /** What reading the oldest records does. */
    ghost predicate Peeked(s: Snapshot, t: Snapshot, batch: Batch) {
      && OldestBatch(s.pending, BatchLimit(), batch)
      && t == s.(phase := if batch.keys == [] then Resting else Sending(batch, 0, true))
    }

    /** Publishing the next record of the round. */
    method PublishOne() returns (ok: bool)
      requires Valid() && phase.Sending? && phase.sent < |phase.batch.blobs|
      modifies this`phase, this`steps, this`state, this`buffered, link`buffer
      ensures Valid() && old(steps) <= steps
      ensures View() == if ok then old(View()).(phase := old(phase).(sent := old(phase.sent) + 1),
                                                buffer := old(link.buffer) + [old(phase.batch.blobs[phase.sent])])
                        else old(View()).(phase := Resting)
    {
      hide Delivery.Reach, Delivery.Next, SpoolAgrees, Blobs, Carried, Drains, Numbered;
      var Sending(batch, sent, intact) := phase;
      PublishSteps(state, batch, sent, intact, onBus, buffered, marshal);
      ghost var r := state.publisher.batch[sent];
      BlobsConcat(buffered, [r], marshal);
      ok := link.Publish(batch.blobs[sent]);
      if ok {
        Take(Delivery.PublishOne);
        phase, buffered := Sending(batch, sent + 1, intact), buffered + [r];
      } else {
        Take(Delivery.PublishFails);
        phase := Resting;
      }
    }

    /** The server receives the first `k` messages of the write buffer. That may
        happen at any time. */
    method Arrive(k: nat)
      requires Valid() && k <= |link.buffer|
      modifies this`steps, this`state, this`onBus, this`buffered, link
      ensures Valid() && old(steps) <= steps
      ensures View() == old(View()).(bus := old(link.bus) + old(link.buffer)[..k], buffer := old(link.buffer)[k..])
    {
      hide Delivery.Reach, Delivery.Next, SpoolAgrees, Blobs, Carried, Drains, Numbered, Elements;
      ghost var arrived, rest := buffered[..k], buffered[k..];
      BlobsSplit(buffered, k, marshal);
      BlobsConcat(onBus, arrived, marshal);
      assert buffered == arrived + rest;
      ArriveSteps(state, phase, onBus, arrived, rest, marshal);
      link.Deliver(k);
      steps := Arrivals(steps, state, arrived);
      state := state.(bus := state.bus + Elements(arrived), buffer := state.buffer - Elements(arrived));
      onBus, buffered := onBus + arrived, rest;
    }

    /** The connection breaks and the write buffer is lost. That too may happen at
        any time. */
    method Break()
      requires Valid()
      modifies this`phase, this`steps, this`state, this`buffered, link`buffer
      ensures Valid() && steps == old(steps) + [Delivery.LinkLost]
      ensures View() == old(View()).(buffer := [], phase := Broken(old(phase)))
    {
      hide Delivery.Reach, Delivery.Next, SpoolAgrees, Blobs, Carried, Drains, Numbered;
      BreakSteps(state, phase, onBus, buffered, marshal);
      NoBlobs(marshal);
      link.Lose();
      Take(Delivery.LinkLost);
      phase, buffered := Broken(phase), [];
    }

    /** The flush once the whole batch is published, while which any part of the
        buffer may arrive. It succeeds only when all of it did and nothing of the
        batch was lost before. */
    method Flush() returns (ok: bool, ghost k: nat)
      requires Valid() && phase.Sending? && phase.sent == |phase.batch.blobs|
      modifies this`phase, this`steps, this`state, this`onBus, this`buffered, link
      ensures Valid() && old(steps) <= steps
      ensures FlushedTo(old(View()), View(), k, ok)
    {
      hide Delivery.Reach, Delivery.Next, Delivery.Enabled, SpoolAgrees, Blobs, Carried, Drains, Numbered;
      var part: nat :| part <= |link.buffer|;
      k := part;
      Arrive(part);
      ok := link.Confirms(phase.intact);
      if ok {
        NothingBuffered(buffered, marshal);
        FlushOkSteps(state, phase.batch, phase.sent, onBus, marshal);
        Take(Delivery.FlushOk);
        phase := Confirmed(phase.batch);
      } else {
        FlushFailsSteps(state, phase, onBus, buffered, marshal);
        Take(Delivery.FlushFails);
        phase := Resting;
      }
    }

    /** What flushing does once `k` messages of the buffer arrived. */
    ghost predicate FlushedTo(s: Snapshot, t: Snapshot, k: nat, ok: bool)
      requires s.phase.Sending?
    {
      && k <= |s.buffer| && (ok ==> k == |s.buffer| && s.phase.intact)
      && t == s.(bus := s.bus + s.buffer[..k], buffer := s.buffer[k..],
                 phase := if ok then Confirmed(s.phase.batch) else Resting)
    }

    /** The acknowledgement that ends a round: it removes only records whose
        bytes are on the bus. */
    method Ack(commits: bool)
      requires Valid() && phase.Confirmed?
      modifies this`phase, this`steps, this`state, spool`events
      ensures Valid() && steps == old(steps) + [if commits then Delivery.Ack else Delivery.AckFails]
      ensures View() == old(View()).(phase := Resting, pending :=
        if commits then old(spool.Pending()) - Elements(Numbers(old(phase.batch.keys))) else old(spool.Pending()))
      ensures state.reservations == old(state.reservations)
      ensures state.reservations <= U64 ==>
        forall n :: n in old(spool.Pending()) && n !in spool.Pending() ==> old(spool.Pending())[n] in link.bus
    {
      hide Delivery.Reach, Delivery.Next, Rendered, Numbered, Numbers, SeqNos, Blobs, Carried, Drains;
      AckSteps(state, phase.batch, onBus, buffered, marshal);
      ghost var rs := state.publisher.batch;
      NumbersOfRecords(rs);
      RenderedDelete(state.pending, marshal, Delivery.Numbers(rs));
      AckedOnBus(steps, state, onBus, marshal);
      var ok := spool.Ack(phase.batch.keys, commits);
      Take(if ok then Delivery.Ack else Delivery.AckFails);
      phase := Resting;
    }

    // ----- The drain loop, made of these calls.

    function BatchLimit(): nat {
      if batchSize < 0 then 0 else batchSize
    }

    /** Publishes a batch; stops at the first failure. */
    method PublishAll() returns (ok: bool, ghost k: nat)
      requires Valid() && phase.Sending? && phase.sent == 0
      modifies this`phase, this`steps, this`state, this`buffered, link`buffer
      ensures Valid() && old(steps) <= steps
      ensures k <= |old(phase.batch.blobs)| && (ok <==> k == |old(phase.batch.blobs)|)
      ensures View() == old(View()).(phase := if ok then old(phase).(sent := k) else Resting,
                                     buffer := old(link.buffer) + old(phase.batch.blobs)[..k])
    {
      hide Valid, Numbered;
      var blobs := phase.batch.blobs;
      k := 0;
      for i := 0 to |blobs|
        invariant Valid() && old(steps) <= steps && k == i
        invariant View() == old(View()).(phase := old(phase).(sent := i), buffer := old(link.buffer) + blobs[..i])
      {
        assert blobs[..i + 1] == blobs[..i] + [blobs[i]];
        var sent := PublishOne();
        if !sent {
          return false, k;
        }
        k := i + 1;
      }
      return true, k;
    }

    /** Publishes a batch and flushes it. */
    method Send() returns (err: Option<DrainError>, ghost k: nat, ghost cut: nat)
      requires Valid() && phase.Sending? && phase.sent == 0
      modifies this`phase, this`steps, this`state, this`onBus, this`buffered, link
      ensures Valid() && old(steps) <= steps
      ensures k <= |old(phase.batch.blobs)| && cut <= |old(link.buffer) + old(phase.batch.blobs)[..k]|
      ensures err.None? ==> k == |old(phase.batch.blobs)| && cut == |old(link.buffer) + old(phase.batch.blobs)|
      ensures var all := old(link.buffer) + old(phase.batch.blobs)[..k];
              View() == old(View()).(bus := old(link.bus) + all[..cut], buffer := all[cut..],
                                     phase := if err.None? then Confirmed(old(phase.batch)) else Resting)
    {
      hide Valid, Numbered, Spool.Pending, Spool.Counter;
      cut := 0;
      var sent, flushed;
      sent, k := PublishAll();
      if !sent {
        assert link.bus + link.buffer[..0] == link.bus && link.buffer[0..] == link.buffer;
        return Some(PublishFailed), k, cut;
      }
      flushed, cut := Flush();
      return if flushed then None else Some(FlushFailed), k, cut;
    }

    /** One round of the drain loop: peek, publish all, flush, acknowledge. */
    method Round() returns (result: RoundResult, ghost m: nat)
      requires Valid() && phase.Resting?
      modifies this`phase, this`steps, this`state, this`onBus, this`buffered, spool`events, link
      ensures Valid() && old(steps) <= steps && m <= |old(spool.Pending()).Keys|
      ensures Drained(old(View()), View(), m)
      ensures result.More? ==> m == batchSize > 0
      ensures result.Finished? && batchSize > 0 ==> spool.Pending() == map[]
    {
      hide Valid, Evict, Oldest, Numbers, Elements, Numbered, IsBatch, AllKeysEightBytes, Drained, Spool.Counter;
      ghost var s := View();
      KeysSound();
      EvictNone(s.pending);
      m := 0;
      NothingDrained(s);
      var readable := *;
      var peeked := Peek(readable);
      if peeked.None? {
        return Failed(PeekFailed), m;
      }
      var batch := peeked.value;
      ghost var n := Min(BatchLimit(), |s.pending.Keys|);
      OldestCapped(s.pending.Keys, BatchLimit());
      BatchCovers(spool.events, batch, n);
      if |batch.blobs| == 0 {
        return Finished, m;
      }
      var err;
      ghost var k, cut;
      err, k, cut := Send();
      var commits := false;
      if err.None? {
        commits := *;
        Ack(commits);
        err := if commits then None else Some(AckFailed);
      }
      m := if commits then n else 0;
      RoundDrains(s, View(), m, batch.blobs, k, cut);
      EvictSize(s.pending, m);
      if err.Some? {
        return Failed(err.value), m;
      }
      return if |batch.blobs| < batchSize then Finished else More, m;
    }

    lemma NothingDrained(s: Snapshot)
      ensures Drained(s, s, 0)
    {
      EvictNone(s.pending);
    }

    /** A round that published `k` blobs of its batch, of which the link then
        delivered as much as `cut` says, and that removed the `m` oldest records,
        none unless the whole batch got through. */
    lemma RoundDrains(s: Snapshot, t: Snapshot, m: nat, blobs: seq<Blob>, k: nat, cut: nat)
      requires k <= |blobs| && cut <= |s.buffer + blobs[..k]| && forall b :: b in blobs ==> b in s.pending.Values
      requires var all := s.buffer + blobs[..k];
               t == s.(pending := Evict(s.pending, m), bus := s.bus + all[..cut], buffer := all[cut..])
      requires m > 0 ==>
        && k == |blobs| && cut == |s.buffer + blobs|
        && forall n :: n in s.pending && n !in Evict(s.pending, m) ==> s.pending[n] in blobs
      ensures Drained(s, t, m)
    {
      hide Evict;
      var all := s.buffer + blobs[..k];
      assert t.bus + t.buffer == s.bus + s.buffer + blobs[..k];
      if m == 0 {
        EvictNone(s.pending);
      } else {
        assert all[..cut] == all && blobs[..k] == blobs;
      }
    }

    /** Rounds until a batch comes back short or something fails.

        `k` counts the records removed from the spool. They are the oldest ones,
        every one of them is on the bus by then, nothing else reached the bus or
        its buffer, and a drain without error leaves the spool empty. */
    method Drain() returns (err: Option<DrainError>, ghost k: nat)
      requires Valid() && phase.Resting?
      modifies this`phase, this`steps, this`state, this`onBus, this`buffered, spool`events, link
      ensures Valid() && old(steps) <= steps && k <= |old(spool.Pending()).Keys|
      ensures Drained(old(View()), View(), k)
      ensures err.None? && batchSize > 0 ==> spool.Pending() == map[]
    {
      hide Valid, Evict, Oldest, Numbers, Elements, Numbered, OnBus, AllFrom;
      k := 0;
      NothingMoved(spool.Pending(), link.bus, link.bus + link.buffer);
      EvictNone(spool.Pending());
      var connected := *;
      if !connected {
        return Some(ConnectFailed), k;
      }
      ghost var pending := spool.Pending();
      var result := More;
      while result.More?
        invariant Valid() && old(steps) <= steps && k <= |pending.Keys|
        invariant Drained(old(View()), View(), k)
        invariant result.Finished? && batchSize > 0 ==> spool.Pending() == map[]
        decreases result.More?, |pending.Keys| - k
      {
        ghost var m;
        EvictSize(pending, k);
        EvictFrame(pending, k);
        ghost var left, bus, all := spool.Pending(), link.bus, link.bus + link.buffer;
        result, m := Round();
        EvictTwice(pending, k, m);
        OnBusTwice(pending, left, spool.Pending(), bus, link.bus);
        AllFromTwice(link.bus + link.buffer, all, old(link.bus + link.buffer), pending, left);
        k := k + m;
      }
      return if result.Failed? then Some(result.error) else None, k;
    }

    /** What draining does: the `k` oldest records leave the spool, all of them on
        the bus by then, and nothing but pending records enters the bus or its
        buffer. */
    ghost predicate Drained(s: Snapshot, t: Snapshot, k: nat) {
      && t == s.(pending := Evict(s.pending, k), bus := t.bus, buffer := t.buffer)
      && OnBus(s.pending, t.pending, t.bus) && s.bus <= t.bus
      && AllFrom(t.bus + t.buffer, s.bus + s.buffer, s.pending)
    }

    /** The process stops and starts again: the buckets survive, the rest does not. */
    method Crash()
      requires Valid()
      modifies this`appending, this`phase, this`steps, this`state, this`buffered, spool`dropped, link`buffer
      ensures Valid() && steps == old(steps) + [Delivery.Crash]
      ensures View() == old(View()).(dropped := 0, appending := {}, phase := Resting, buffer := [])
      ensures state.droppedBefore == old(state.droppedBefore) + old(spool.dropped)
    {
      hide Delivery.Reach, Delivery.Next, Rendered, Numbered, Blobs, Carried, Drains;
      CrashSteps(state, onBus, buffered, marshal);
      NoBlobs(marshal);
      spool.Reopen();
      link.Lose();
      Take(Delivery.Crash);
      appending, phase, buffered := {}, Resting, [];
    }

    // ----- Any calls in any order.

    /** What one call makes of what the sensor holds. A call that its caller could
        not make at that point does nothing. */
    ghost predicate Effect(call: Call, s: Snapshot, t: Snapshot) {
      match call
      case CallReserve(commits) =>
        t == if commits then s.(counter := Following(s.counter), appending := s.appending + {Following(s.counter)}) else s
      case CallStore(n, env, size, deleteFails, commits) =>
        if n !in s.appending then t == s
        else exists ok, k :: Stores(s, t, n, env, k, ok)
                              && spool.Evicts(size, deleteFails, commits, |marshal(env.(seqNo := n))|, s.pending, k, ok)
      case CallPeek(readable) =>
        if !s.phase.Resting? || !readable then t == s
        else exists batch :: Peeked(s, t, batch)
      case CallPublish =>
        if !s.phase.Sending? || s.phase.sent >= |s.phase.batch.blobs| then t == s
        else t == s.(phase := Resting)
             || t == s.(phase := s.phase.(sent := s.phase.sent + 1), buffer := s.buffer + [s.phase.batch.blobs[s.phase.sent]])
      case CallArrive(k) =>
        t == if k > |s.buffer| then s else s.(bus := s.bus + s.buffer[..k], buffer := s.buffer[k..])
      case CallBreak => t == s.(buffer := [], phase := Broken(s.phase))
      case CallFlush =>
        if !s.phase.Sending? || s.phase.sent != |s.phase.batch.blobs| then t == s
        else exists ok, k :: FlushedTo(s, t, k, ok)
      case CallAck(commits) =>
        t == if !s.phase.Confirmed? then s
             else s.(phase := Resting, pending :=
                     if commits then s.pending - Elements(Numbers(s.phase.batch.keys)) else s.pending)
      case CallDrain =>
        if !s.phase.Resting? then t == s else exists k: nat :: k <= |s.pending.Keys| && Drained(s, t, k)
      case CallCrash => t == s.(dropped := 0, appending := {}, phase := Resting, buffer := [])
    }

    /** One of the two transactions of an append. */
    method PerformAppend(call: Call)
      requires Valid() && (call.CallReserve? || call.CallStore?)
      modifies this, spool
      ensures Valid() && old(steps) <= steps
      ensures Effect(call, old(View()), View())
    {
      hide Valid, Numbered, Following, Stores, Spool.Evicts, Spool.Pending, Spool.Counter;
      match call
      case CallReserve(commits) => Reserve(commits);
      case CallStore(n, env, size, deleteFails, commits) =>
        if n in appending {
          var _, _ := Store(n, env, size, deleteFails, commits);
        }
    }

    /** One call, where its caller can make it. */
    method Perform(call: Call)
      requires Valid()
      modifies this, spool, link
      ensures Valid() && old(steps) <= steps
      ensures Effect(call, old(View()), View())
    {
      hide Valid, Numbered, Oldest, OldestBatch, Numbers, Elements, Following, IsBatch, Stores, Spool.Evicts, Drained, FlushedTo, Peeked,
        Spool.Pending, Spool.Counter;
      match call
      case CallReserve(_) => PerformAppend(call);
      case CallStore(_, _, _, _, _) => PerformAppend(call);
      case CallPeek(readable) =>
        if phase.Resting? {
          var batch := Peek(readable);
          assert batch.Some? ==> Peeked(old(View()), View(), batch.value);
        }
      case CallPublish =>
        if phase.Sending? && phase.sent < |phase.batch.blobs| {
          var _ := PublishOne();
        }
      case CallArrive(k) =>
        if k <= |link.buffer| {
          Arrive(k);
        }
      case CallBreak => Break();
      case CallFlush =>
        if phase.Sending? && phase.sent == |phase.batch.blobs| {
          var _, _ := Flush();
        }
      case CallAck(commits) =>
        if phase.Confirmed? {
          Ack(commits);
        }
      case CallDrain =>
        if phase.Resting? {
          var _, _ := Drain();
        }
      case CallCrash => Crash();
    }
  }

  lemma RestsIdle(l: LinkSide, marshal: Marshal)
    requires Drains(l, Resting, marshal)
    ensures l.publisher.Idle?
  {
  }

  lemma NoBlobs(marshal: Marshal)
    ensures Blobs([], marshal) == []
  {
  }

  lemma NothingBuffered(rs: seq<Delivery.Record>, marshal: Marshal)
    requires Blobs(rs, marshal) == []
    ensures rs == []
  {
  }

  lemma NothingYet(marshal: Marshal)
    ensures Blobs([], marshal) == [] && Rendered(map[], marshal) == map[] && Delivery.Reach([]) == Some(Delivery.INITIAL)
  {
  }

  /** What an exact acknowledgement removes, in bytes. */
  lemma AckedOnBus(steps: seq<Delivery.Step>, s: Delivery.State, onBus: seq<Delivery.Record>, marshal: Marshal)
    requires Delivery.Reach(steps) == Some(s) && s.publisher.Flushed? && Elements(onBus) == s.bus
    ensures s.reservations <= U64 ==>
      var now := Rendered(s.pending, marshal);
      forall n :: n in now && n !in now - Delivery.Numbers(s.publisher.batch) ==> now[n] in Blobs(onBus, marshal)
    ensures Delivery.Next(s, Delivery.Ack).reservations == s.reservations
    ensures Delivery.Next(s, Delivery.AckFails).reservations == s.reservations
  {
    hide Delivery.Reach;
    if s.reservations <= U64 {
      Delivery.AckExact(steps);
      forall n | n in s.pending && n in Delivery.Numbers(s.publisher.batch)
        ensures marshal(s.pending[n]) in Blobs(onBus, marshal)
      {
        var r := Delivery.Record(n, s.pending[n]);
        assert n !in Delivery.Next(s, Delivery.Ack).pending;
        var i :| 0 <= i < |onBus| && onBus[i] == r;
        assert Blobs(onBus, marshal)[i] == marshal(r.env);
      }
    }
  }

  /** The calls of the sensor, and what the connection does by itself. */
  datatype Call =
    | CallReserve(commits: bool)
    | CallStore(n: nat, env: Envelope, size: nat -> int, deleteFails: nat -> bool, commits: bool)
    | CallPeek(readable: bool) | CallPublish | CallFlush
    | CallArrive(k: nat) | CallBreak
    | CallAck(commits: bool)
    | CallDrain
    | CallCrash

  /** Each call of the list makes of one snapshot the next. */
  ghost predicate Chained(sensor: Sensor, calls: seq<Call>, trace: seq<Snapshot>) {
    |trace| == |calls| + 1 && forall i :: 0 <= i < |calls| ==> sensor.Effect(calls[i], trace[i], trace[i + 1])
  }

  lemma ChainSnoc(sensor: Sensor, calls: seq<Call>, trace: seq<Snapshot>, call: Call, t: Snapshot)
    requires Chained(sensor, calls, trace) && sensor.Effect(call, trace[|calls|], t)
    ensures Chained(sensor, calls + [call], trace + [t])
  {
    hide Sensor.Effect;
  }

  /** Every execution is a run of the protocol, and a chain of what its calls do. */
  method Execute(sensor: Sensor, calls: seq<Call>) returns (ghost trace: seq<Snapshot>)
    requires sensor.Valid()
    modifies sensor, sensor.spool, sensor.link
    ensures sensor.Valid() && old(sensor.steps) <= sensor.steps
    ensures Chained(sensor, calls, trace) && trace[0] == old(sensor.View()) && trace[|calls|] == sensor.View()
  {
    hide Sensor.Valid, Sensor.View, Sensor.Effect;
    trace := [sensor.View()];
    for i := 0 to |calls|
      invariant sensor.Valid() && old(sensor.steps) <= sensor.steps
      invariant Chained(sensor, calls[..i], trace) && trace[0] == old(sensor.View()) && trace[i] == sensor.View()
    {
      assert calls[..i + 1] == calls[..i] + [calls[i]];
      sensor.Perform(calls[i]);
      ChainSnoc(sensor, calls[..i], trace, calls[i], sensor.View());
      trace := trace + [sensor.View()];
    }
    assert calls[..|calls|] == calls;
  }

  /** No silent loss, of the code: every record its storing transactions ever
      committed is in the spool under its number, or its bytes are on the bus, or
      it was evicted; and those lost that way are at most what `dropped` counted
      over all process lifetimes. */
  lemma NothingLostSilently(sensor: Sensor)
    requires sensor.Valid() && sensor.state.reservations <= U64
    ensures var s := sensor.state;
            var pending := sensor.spool.Pending();
            && s.stored == sensor.View().stored
            && (forall r :: r in s.stored ==>
                  (r.seqNo in pending && pending[r.seqNo] == sensor.marshal(r.env))
                  || sensor.marshal(r.env) in sensor.link.bus
                  || r in s.evicted)
            && |Delivery.Lost(s)| <= s.droppedBefore + sensor.spool.dropped
  {
    hide Delivery.Reach, Delivery.Lost, Drains, Numbered;
    var s := sensor.state;
    Delivery.NoSilentLoss(sensor.steps);
    forall r | r in s.stored && r in s.bus ensures sensor.marshal(r.env) in sensor.link.bus {
      var i :| 0 <= i < |sensor.onBus| && sensor.onBus[i] == r;
      assert Blobs(sensor.onBus, sensor.marshal)[i] == sensor.marshal(r.env);
    }
  }
}
