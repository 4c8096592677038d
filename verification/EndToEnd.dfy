/** One sensor's delivery protocol joined to the collector. The bus may deliver
    any message it holds any number of times, in any order, between messages
    published under other nodes' subjects. */
module EndToEnd {
  import opened Basics
  import opened Events
  import opened SeqTracking
  import Delivery
  import opened Ingest
  import opened Acceptance

  datatype System = System(sensor: Delivery.State, collector: Collector)

  datatype Action =
    | Sensor(step: Delivery.Step)
    | Deliver(record: Delivery.Record, now: Timestamp, fault: Fault)
    | Foreign(message: Message)

  /** The subject the sensor publishes under. */
  function OwnSubject(node: string): string {
    SUBJECT_PREFIX + "." + node
  }

  function Delivered(node: string, r: Delivery.Record, now: Timestamp, fault: Fault): Message {
    Message(OwnSubject(node), Some(r.env), now, fault)
  }

  ghost predicate Possible(node: string, s: System, a: Action) {
    match a
    case Sensor(step) => Delivery.Enabled(s.sensor, step)
    case Deliver(r, now, fault) => r in s.sensor.bus && r.env.seqNo < U64
    // The bus lets nobody else publish under this node's subject.
    case Foreign(m) => WellSized(m) && NodeFromSubject(m.subject) != Some(node)
  }

  ghost function After(node: string, s: System, a: Action): System
    requires Possible(node, s, a)
  {
    match a
    case Sensor(step) => s.(sensor := Delivery.Next(s.sensor, step))
    case Deliver(r, now, fault) => s.(collector := Handled(s.collector, Delivered(node, r, now, fault)))
    case Foreign(m) => s.(collector := Handled(s.collector, m))
  }

  ghost function Outcome(node: string, actions: seq<Action>): Option<System> {
    if actions == [] then Some(System(Delivery.INITIAL, EMPTY)) else
      var before := Outcome(node, actions[..|actions| - 1]);
      if before.Some? && Possible(node, before.value, actions[|actions| - 1])
      then Some(After(node, before.value, actions[|actions| - 1])) else None
  }

  /** A row filed under this node repeats a record that the bus holds. */
  ghost predicate RowBacked(s: System, k: RowKey)
    requires k in s.collector.events
  {
    exists r :: r in s.sensor.bus && Matches(r.env, s.collector.events[k])
  }

  ghost predicate RowsBacked(node: string, s: System) {
    forall k :: k in s.collector.events && k.0 == node ==> RowBacked(s, k)
  }

  lemma BusGrows(s: Delivery.State, step: Delivery.Step)
    requires Delivery.Enabled(s, step)
    ensures s.bus <= Delivery.Next(s, step).bus
  {
  }

  lemma AfterBacked(node: string, s: System, a: Action)
    requires Possible(node, s, a) && RowsBacked(node, s)
    ensures RowsBacked(node, After(node, s, a))
  {
    hide Handled, Inserts, NodeFromSubject, Delivery.Next, Matches;
    var t := After(node, s, a);
    match a
    case Sensor(step) =>
      BusGrows(s.sensor, step);
      forall k | k in t.collector.events && k.0 == node ensures RowBacked(t, k) {
        assert RowBacked(s, k);
      }
    case Deliver(r, now, fault) =>
      var m := Delivered(node, r, now, fault);
      forall k | k in t.collector.events && k.0 == node ensures RowBacked(t, k) {
        HandledRow(s.collector, m, k);
        if k in s.collector.events {
          assert RowBacked(s, k);
        } else {
          assert Matches(r.env, t.collector.events[k]);
        }
      }
    case Foreign(m) =>
      forall k | k in t.collector.events && k.0 == node ensures RowBacked(t, k) {
        HandledRow(s.collector, m, k);
        assert RowBacked(s, k);
      }
  }

  lemma {:induction false} AlwaysBacked(node: string, actions: seq<Action>)
    requires Outcome(node, actions).Some?
    ensures RowsBacked(node, Outcome(node, actions).value)
  {
    if actions != [] {
      var init := actions[..|actions| - 1];
      AlwaysBacked(node, init);
      AfterBacked(node, Outcome(node, init).value, actions[|actions| - 1]);
    }
  }

  /** The sensor's own steps, which alone decide the sensor's state. */
  ghost function SensorSteps(actions: seq<Action>): seq<Delivery.Step> {
    if actions == [] then []
    else SensorSteps(actions[..|actions| - 1])
         + if actions[|actions| - 1].Sensor? then [actions[|actions| - 1].step] else []
  }

  lemma {:induction false} SensorAlone(node: string, actions: seq<Action>)
    requires Outcome(node, actions).Some?
    ensures Delivery.Reach(SensorSteps(actions)) == Some(Outcome(node, actions).value.sensor)
  {
    hide Delivery.Next, Handled, Delivery.Enabled;
    if actions != [] {
      var init, a := actions[..|actions| - 1], actions[|actions| - 1];
      SensorAlone(node, init);
      if a.Sensor? {
        Delivery.ReachSnoc(SensorSteps(init), a.step);
      } else {
        assert SensorSteps(actions) == SensorSteps(init);
      }
    }
  }

  /** From the attacker's keystroke to the database row: whatever is delivered,
      duplicated, reordered or forged elsewhere, every row filed under a node
      repeats exactly one record its spool stored; and every record stored is
      still spooled, on the bus, or counted as dropped. */
  lemma WholePath(node: string, actions: seq<Action>)
    requires Outcome(node, actions).Some? && Outcome(node, actions).value.sensor.reservations <= U64
    ensures var s := Outcome(node, actions).value;
            && (forall k :: k in s.collector.events && k.0 == node ==>
                  exists r :: r in s.sensor.stored && r in s.sensor.bus && Matches(r.env, s.collector.events[k]))
            && (forall r, q, e :: r in s.sensor.stored && q in s.sensor.stored && Matches(r.env, e) && Matches(q.env, e) ==> r == q)
            && Delivery.Lost(s.sensor) <= s.sensor.evicted
            && |Delivery.Lost(s.sensor)| <= s.sensor.droppedBefore + s.sensor.dropped
  {
    hide Outcome, Delivery.Reach, Delivery.Lost;
    var s := Outcome(node, actions).value;
    AlwaysBacked(node, actions);
    SensorAlone(node, actions);
    Delivery.NoSilentLoss(SensorSteps(actions));
    Delivery.ReachKeeps(SensorSteps(actions));
    forall k | k in s.collector.events && k.0 == node
      ensures exists r :: r in s.sensor.stored && r in s.sensor.bus && Matches(r.env, s.collector.events[k])
    {
      assert RowBacked(s, k);
    }
  }

  // ----- What the collector's missing numbers are.

  /** What reached the collector, in order. */
  function Messages(node: string, actions: seq<Action>): seq<Message> {
    if actions == [] then []
    else Messages(node, actions[..|actions| - 1])
         + match actions[|actions| - 1]
           case Sensor(_) => []
           case Deliver(r, now, fault) => [Delivered(node, r, now, fault)]
           case Foreign(m) => [m]
  }

  lemma {:induction false} CollectorRuns(node: string, actions: seq<Action>)
    requires Outcome(node, actions).Some?
    ensures AllWellSized(Messages(node, actions))
    ensures Outcome(node, actions).value.collector == Run(Messages(node, actions))
  {
    hide Handled, Delivery.Next, Delivery.Enabled, NodeFromSubject;
    if actions != [] {
      var init, a := actions[..|actions| - 1], actions[|actions| - 1];
      CollectorRuns(node, init);
      var ms := Messages(node, init);
      match a
      case Sensor(_) => assert ms + [] == ms;
      case Deliver(r, now, fault) => RunSnoc(ms, Delivered(node, r, now, fault));
      case Foreign(m) => RunSnoc(ms, m);
    }
  }

  lemma RunSnoc(ms: seq<Message>, m: Message)
    requires AllWellSized(ms) && WellSized(m)
    ensures AllWellSized(ms + [m]) && Run(ms + [m]) == Handled(Run(ms), m)
  {
    hide Handled, WellSized;
    assert (ms + [m])[..|ms|] == ms;
  }

  /** The numbers that passed the collector's gates under this node, in order. */
  function Observed(node: string, actions: seq<Action>): seq<U64Value>
    requires AllWellSized(Messages(node, actions))
  {
    Project(Numbers(Messages(node, actions)), node)
  }

  /** The delivery of this record passed the gates. */
  predicate Passes(node: string, a: Action, r: Delivery.Record) {
    a.Deliver? && a.record == r && var e := Accept(Delivered(node, r, a.now, a.fault)); e.Some? && e.value.nodeId == node
  }

  ghost predicate Received(node: string, actions: seq<Action>, r: Delivery.Record) {
    exists a :: a in actions && Passes(node, a, r)
  }

  lemma ReceivedSnoc(node: string, init: seq<Action>, a: Action, r: Delivery.Record)
    ensures Received(node, init + [a], r) <==> Received(node, init, r) || Passes(node, a, r)
  {
    hide Passes;
    assert forall b :: b in init + [a] <==> b in init || b == a;
  }

  /** The number a message adds to the node's observations. */
  function Adds(m: Message, node: string): seq<nat> {
    var e := Accept(m);
    if e.Some? && e.value.nodeId == node then [e.value.seqNo] else []
  }

  lemma NumbersSnoc(ms: seq<Message>, m: Message, node: string)
    requires AllWellSized(ms) && WellSized(m)
    ensures AllWellSized(ms + [m]) && Project(Numbers(ms + [m]), node) == Project(Numbers(ms), node) + Adds(m, node)
  {
    hide Accept;
    assert (ms + [m])[..|ms|] == ms;
    var e := Accept(m);
    if e.Some? {
      var log, o: (string, U64Value) := Numbers(ms), (e.value.nodeId, e.value.seqNo);
      assert Numbers(ms + [m]) == log + [o];
      assert (log + [o])[..|log|] == log;
      assert Project(log, node) + [] == Project(log, node);
    } else {
      assert Numbers(ms + [m]) == Numbers(ms);
    }
  }

  lemma AddsOfDelivery(node: string, a: Action, m: Message, n: nat)
    requires a.Deliver? && m == Delivered(node, a.record, a.now, a.fault)
    ensures n in Adds(m, node) <==> Passes(node, a, a.record) && a.record.env.seqNo == n
  {
    hide Accept;
    var e := Accept(m);
    assert e.Some? ==> Matches(a.record.env, e.value) by { AcceptMatches(m); }
  }

  lemma AcceptMatches(m: Message)
    ensures Accept(m).Some? ==> m.decoded.Some? && Matches(m.decoded.value, Accept(m).value)
    ensures Accept(m).Some? ==> Accept(m).value.seqNo > 0 && NodeFromSubject(m.subject) == Some(Accept(m).value.nodeId)
  {
    hide NodeFromSubject, Normalize, Matches;
  }

  /** A number was observed exactly when the delivery of a record carrying it passed. */
  lemma {:induction false} ObservedIff(node: string, actions: seq<Action>, n: nat)
    requires Outcome(node, actions).Some? && AllWellSized(Messages(node, actions))
    ensures n in Observed(node, actions) <==> exists r :: Received(node, actions, r) && r.env.seqNo == n
  {
    hide Handled, Delivery.Next, Delivery.Enabled, NodeFromSubject, Accept, Passes, Received, Numbers, Project, Adds;
    NothingReceived(node);
    if actions != [] {
      var init, a := actions[..|actions| - 1], actions[|actions| - 1];
      assert actions == init + [a];
      CollectorRuns(node, init);
      ObservedIff(node, init, n);
      var ms := Messages(node, init);
      forall r ensures Received(node, actions, r) <==> Received(node, init, r) || Passes(node, a, r) {
        ReceivedSnoc(node, init, a, r);
      }
      PassesOnly(node, a);
      match a
      case Sensor(_) => assert Messages(node, actions) == ms;
      case Deliver(r, now, fault) =>
        NumbersSnoc(ms, Delivered(node, r, now, fault), node);
        AddsOfDelivery(node, a, Delivered(node, r, now, fault), n);
      case Foreign(m) =>
        NumbersSnoc(ms, m, node);
        ForeignAdds(m, node);
    }
  }

  lemma PassesOnly(node: string, a: Action)
    ensures forall r :: Passes(node, a, r) ==> a.Deliver? && a.record == r
  {
  }

  lemma NothingReceived(node: string)
    ensures Messages(node, []) == [] && Observed(node, []) == [] && forall r :: !Received(node, [], r)
  {
  }

  lemma ForeignAdds(m: Message, node: string)
    requires NodeFromSubject(m.subject) != Some(node)
    ensures Adds(m, node) == []
  {
    hide Accept;
    AcceptMatches(m);
  }

  /** Whatever was received is on the bus, and carries a positive number. */
  lemma {:induction false} ReceivedOnBus(node: string, actions: seq<Action>, r: Delivery.Record)
    requires Outcome(node, actions).Some? && Received(node, actions, r)
    ensures r in Outcome(node, actions).value.sensor.bus && r.env.seqNo > 0
  {
    hide Handled, Delivery.Next, NodeFromSubject, Delivery.Enabled, Accept;
    var init, a := actions[..|actions| - 1], actions[|actions| - 1];
    assert actions == init + [a];
    ReceivedSnoc(node, init, a, r);
    if Passes(node, a, r) {
      AcceptMatches(Delivered(node, r, a.now, a.fault));
    } else {
      ReceivedOnBus(node, init, r);
      if a.Sensor? {
        BusGrows(Outcome(node, init).value.sensor, a.step);
      }
    }
  }

  lemma {:induction false} LastIsObserved(obs: seq<U64Value>)
    requires obs != []
    ensures LastAccepted(obs).value in obs
  {
    hide Verdict;
    var init := obs[..|obs| - 1];
    if init != [] {
      LastIsObserved(init);
    }
  }

  /** What may have become of a number that never came: nothing was stored under it,
      or the one record that was is still spooled, or was evicted, or is on the bus
      and no delivery of it has passed the gates. */
  ghost predicate Whereabouts(node: string, actions: seq<Action>, s: Delivery.State, n: int) {
    forall r :: r in s.stored && r.seqNo == n ==>
      !Received(node, actions, r) && (Delivery.IsPending(s, r) || r in s.evicted || r in s.bus)
  }

  /** What the numbers missing at the collector are. A number between the first it
      observed and the last it accepted is missing exactly when no record stored
      under that number has been received; each was reserved by the sensor, and
      what became of it is known. */
  lemma MissingIff(node: string, actions: seq<Action>, n: int)
    requires Outcome(node, actions).Some? && Outcome(node, actions).value.sensor.reservations <= U64
    requires AllWellSized(Messages(node, actions)) && Observed(node, actions) != []
    ensures var obs, s := Observed(node, actions), Outcome(node, actions).value.sensor;
            && (n in Unobserved(obs) <==>
                  obs[0] <= n <= LastAccepted(obs).value && forall r :: r in s.stored && r.seqNo == n ==> !Received(node, actions, r))
            && (n in Unobserved(obs) ==> 0 < n <= s.reservations && Whereabouts(node, actions, s, n))
  {
    hide Outcome, Delivery.Reach, Received, Observed, LastAccepted;
    var obs, s := Observed(node, actions), Outcome(node, actions).value.sensor;
    SensorAlone(node, actions);
    Delivery.ReachKeeps(SensorSteps(actions));
    forall r | Received(node, actions, r) ensures r in s.stored && r.env.seqNo == r.seqNo > 0 && r.seqNo <= s.reservations {
      ReceivedOnBus(node, actions, r);
    }
    if n >= 0 {
      ObservedIff(node, actions, n);
    }
    var last := LastAccepted(obs).value;
    LastIsObserved(obs);
    ObservedIff(node, actions, last);
    ObservedIff(node, actions, obs[0]);
    assert last <= s.reservations && obs[0] > 0;
    assert forall r :: r in s.stored ==> Delivery.Accounted(s, r);
  }

  /** So `missing_events` is the sum, over the nodes, of how many numbers are missing
      in that sense and how many came late; as long as u64::MAX is followed by no
      other number, as it is while fewer than 2^64 - 1 numbers are reserved. */
  lemma MissingEventsMean(node: string, actions: seq<Action>, nodes: set<string>)
    requires Outcome(node, actions).Some? && Outcome(node, actions).value.sensor.reservations <= U64
    requires AllWellSized(Messages(node, actions)) && Observed(node, actions) != []
    requires forall o :: o in Numbers(Messages(node, actions)) ==> o.0 in nodes
    ensures var obs, s := Observed(node, actions), Outcome(node, actions).value;
            && s.collector.stats.missingEvents == Sum(nodes, x => TotalMissing(Project(Numbers(Messages(node, actions)), x)))
            && (s.sensor.reservations < MAX ==> NoWrap(obs))
            && (NoWrap(obs) ==> TotalMissing(obs) == |Unobserved(obs)| + LateArrivals(obs))
  {
    hide Outcome, Delivery.Reach, Received, Run, Numbers;
    CollectorRuns(node, actions);
    GapsAreSums(Messages(node, actions), nodes);
    var obs, s := Observed(node, actions), Outcome(node, actions).value.sensor;
    if NoWrap(obs) {
      MissingAccounted(obs);
    }
    SensorAlone(node, actions);
    Delivery.ReachKeeps(SensorSteps(actions));
    forall i | 0 <= i < |obs| ensures obs[i] <= s.reservations {
      ObservedIff(node, actions, obs[i]);
      var r :| Received(node, actions, r) && r.env.seqNo == obs[i];
      ReceivedOnBus(node, actions, r);
    }
  }

  // ----- Which records have a row.

  /** A delivery of a well-formed record of this node with this number, the statements
      up to the event's row succeeding. */
  ghost predicate WritesRow(node: string, a: Action, n: nat) {
    a.Deliver? && a.record.env.seqNo == n && WellFormed(a.record.env, node) && RowWritten(a.record.env, a.fault)
  }

  lemma DeliveredInserts(node: string, a: Action, n: nat)
    requires node != "" && '.' !in node && a.Deliver? && a.record.env.seqNo < U64 && n < U64
    ensures var m := Delivered(node, a.record, a.now, a.fault);
            WellSized(m) && (InsertsKey(m, (node, AsI64(n))) <==> WritesRow(node, a, n))
  {
    hide NodeFromSubject, Normalize, WellFormed, Names;
    var m := Delivered(node, a.record, a.now, a.fault);
    OwnSubjectIff(node);
    NamesIs(m.subject, node);
    NamesIs(m.subject, a.record.env.nodeId);
    ClaimsItself(a.record.env);
    AcceptIff(m);
    InsertsIs(m);
    if Inserts(m).Some? {
      CastInjective(n, a.record.env.seqNo);
    }
  }

  lemma ForeignInserts(m: Message, node: string, n: nat)
    requires WellSized(m) && NodeFromSubject(m.subject) != Some(node) && n < U64
    ensures !InsertsKey(m, (node, AsI64(n)))
  {
    hide NodeFromSubject;
  }

  /** Rows are exactly what was delivered: the collector has a row for a number of
      this node if and only if some delivery of a well-formed record carrying it got
      past the statements that write it. */
  lemma {:induction false} RowIff(node: string, actions: seq<Action>, n: nat)
    requires node != "" && '.' !in node && n < U64 && Outcome(node, actions).Some?
    ensures (node, AsI64(n)) in Outcome(node, actions).value.collector.events <==> exists a :: a in actions && WritesRow(node, a, n)
  {
    hide Handled, Delivery.Next, Delivery.Enabled, NodeFromSubject, InsertsKey, WritesRow, AsI64;
    if actions != [] {
      var init, a := actions[..|actions| - 1], actions[|actions| - 1];
      assert actions == init + [a];
      assert forall b :: b in actions <==> b in init || b == a;
      RowIff(node, init, n);
      var c, k := Outcome(node, init).value.collector, (node, AsI64(n));
      OnlyDeliveries(node, a, n);
      match a
      case Sensor(_) =>
      case Deliver(r, now, fault) =>
        DeliveredInserts(node, a, n);
        HandledRow(c, Delivered(node, r, now, fault), k);
      case Foreign(m) =>
        ForeignInserts(m, node, n);
        HandledRow(c, m, k);
    }
  }

  lemma OnlyDeliveries(node: string, a: Action, n: nat)
    ensures WritesRow(node, a, n) ==> a.Deliver?
  {
  }

  /** So every well-formed record whose delivery was written has a row, and while
      numbers are unique the row says what the record says. */
  lemma DeliveredHasRow(node: string, actions: seq<Action>, a: Action)
    requires node != "" && '.' !in node && Outcome(node, actions).Some? && a in actions && a.Deliver?
    requires Outcome(node, actions).value.sensor.reservations <= U64
    requires WellFormed(a.record.env, node) && RowWritten(a.record.env, a.fault)
    ensures var n, events := a.record.env.seqNo, Outcome(node, actions).value.collector.events;
            n < U64 && (node, AsI64(n)) in events && Matches(a.record.env, events[(node, AsI64(n))])
  {
    hide Outcome, WellFormed, Delivery.Reach, Delivery.Lost, Matches, AsI64;
    var s, n := Outcome(node, actions).value, a.record.env.seqNo;
    DeliveredOnBus(node, actions, a);
    RowIff(node, actions, n);
    var k := (node, AsI64(n));
    WholePath(node, actions);
    SensorAlone(node, actions);
    Delivery.ReachKeeps(SensorSteps(actions));
    var r :| r in s.sensor.stored && r in s.sensor.bus && Matches(r.env, s.collector.events[k]);
    CollectorRuns(node, actions);
    Attributed(Messages(node, actions), k);
    SameNumber(r.env, s.collector.events[k], n);
    assert a.record in s.sensor.stored;
  }

  lemma SameNumber(env: Envelope, e: Event, n: nat)
    requires Matches(env, e) && e.seqNo < U64 && n < U64 && AsI64(e.seqNo) == AsI64(n)
    ensures env.seqNo == n
  {
  }

  lemma {:induction false} DeliveredOnBus(node: string, actions: seq<Action>, a: Action)
    requires Outcome(node, actions).Some? && a in actions && a.Deliver?
    ensures a.record in Outcome(node, actions).value.sensor.bus && a.record.env.seqNo < U64
  {
    hide Handled, Delivery.Next, NodeFromSubject, Delivery.Enabled, Accept;
    var init, last := actions[..|actions| - 1], actions[|actions| - 1];
    assert actions == init + [last];
    if a != last {
      DeliveredOnBus(node, init, a);
      if last.Sensor? {
        BusGrows(Outcome(node, init).value.sensor, last.step);
      }
    }
  }

  // ----- A gap without a loss.

  function Claimed(n: nat): Envelope {
    Envelope("a", n, "", 1, None, Some(Command("id")))
  }

  function OnSensor(steps: seq<Delivery.Step>): seq<Action> {
    seq(|steps|, i requires 0 <= i < |steps| => Sensor(steps[i]))
  }

  lemma {:induction false} SensorFirst(node: string, steps: seq<Delivery.Step>)
    requires Delivery.Reach(steps).Some?
    ensures Outcome(node, OnSensor(steps)) == Some(System(Delivery.Reach(steps).value, EMPTY))
    ensures Messages(node, OnSensor(steps)) == []
  {
    hide Delivery.Next, Delivery.Enabled;
    if steps != [] {
      var init := steps[..|steps| - 1];
      SensorFirst(node, init);
      assert OnSensor(steps)[..|steps| - 1] == OnSensor(init);
    }
  }

  lemma OutcomeSnoc(node: string, actions: seq<Action>, r: Delivery.Record)
    requires Outcome(node, actions).Some? && r in Outcome(node, actions).value.sensor.bus && r.env.seqNo < U64
    ensures Outcome(node, actions + [Deliver(r, 0, NoFault)]).Some?
    ensures Outcome(node, actions + [Deliver(r, 0, NoFault)]).value.sensor == Outcome(node, actions).value.sensor
    ensures Messages(node, actions + [Deliver(r, 0, NoFault)]) == Messages(node, actions) + [Delivered(node, r, 0, NoFault)]
  {
    hide Handled;
    var all := actions + [Deliver(r, 0, NoFault)];
    assert all[..|all| - 1] == actions;
  }

  lemma ClaimedPasses(n: nat)
    requires 0 < n < U64
    ensures Adds(Delivered("a", Delivery.Record(n, Claimed(n)), 0, NoFault), "a") == [n]
  {
    OwnSubjectIff("a");
    hide NodeFromSubject;
  }

  /** The tracker reports a gap at number 3, although nothing was lost: record 2 was
      stored after record 3 had been drained, and is still spooled. */
  lemma GapWithoutLoss() returns (actions: seq<Action>)
    ensures Outcome("a", actions).Some? && AllWellSized(Messages("a", actions))
    ensures var obs, s := Observed("a", actions), Outcome("a", actions).value.sensor;
            && obs == [1, 3] && FinalVerdict(obs) == Gap(2, 3, 1) && 2 in Unobserved(obs)
            && Delivery.IsPending(s, Delivery.Record(2, Claimed(2))) && Delivery.Lost(s) == {} && s.evicted == {}
  {
    hide Outcome, Delivery.Reach, Handled, Numbers, Adds, Messages;
    var steps := Delivery.ThirdOvertakes(Claimed(1), Claimed(2), Claimed(3));
    SensorFirst("a", steps);
    var first, third := Delivery.Record(1, Claimed(1)), Delivery.Record(3, Claimed(3));
    OutcomeSnoc("a", OnSensor(steps), first);
    actions := OnSensor(steps) + [Deliver(first, 0, NoFault)];
    OutcomeSnoc("a", actions, third);
    actions := actions + [Deliver(third, 0, NoFault)];
    ClaimedPasses(1);
    ClaimedPasses(3);
    NumbersSnoc([], Delivered("a", first, 0, NoFault), "a");
    NumbersSnoc([] + [Delivered("a", first, 0, NoFault)], Delivered("a", third, 0, NoFault), "a");
    NothingObserved("a");
    assert [] + [1] + [3] == [1, 3];
    OneThree();
    assert forall r :: r in Delivery.Reach(steps).value.stored ==> r == first || r == third || r == Delivery.Record(2, Claimed(2));
  }

  lemma NothingObserved(node: string)
    ensures AllWellSized([]) && Project(Numbers([]), node) == []
  {
  }

  lemma OneThree()
    ensures var obs: seq<U64Value> := [1, 3]; FinalVerdict(obs) == Gap(2, 3, 1) && 2 in Unobserved(obs)
  {
    var obs: seq<U64Value> := [1, 3];
    assert obs[..1] == [1] && [1][..0] == [];
    assert LastAccepted([1]) == Some(1);
  }
}
