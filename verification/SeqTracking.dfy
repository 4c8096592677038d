/** Per-node sequence bookkeeping (`SeqTracker` in collector/src/ingest.rs). */
module SeqTracking {
  import opened Basics

  type U64Value = n: nat | n < U64

  const MAX: U64Value := U64 - 1

  datatype SeqStatus =
    | InOrder
    | FirstSeen
    | Gap(expected: U64Value, got: U64Value, missing: U64Value)
    | Replay(last: U64Value, got: U64Value)

  /** The verdict on one number, given the last one accepted. `u64` arithmetic wraps. */
  function Verdict(last: Option<U64Value>, got: U64Value): SeqStatus {
    if last.None? then FirstSeen
    else
      var expected := (last.value + 1) % U64;
      if got == expected then InOrder
      else if got > expected then Gap(expected, got, (got - last.value - 1) % U64)
      else Replay(last.value, got)
  }

  /** The last number accepted after one more observation. */
  function Accepted(last: Option<U64Value>, got: U64Value): Option<U64Value> {
    if Verdict(last, got).Replay? then last else Some(got)
  }

  class SeqTracker {
    var last: map<string, U64Value>

    constructor ()
      ensures last == map[]
    {
      last := map[];
    }

    method Observe(node: string, got: U64Value) returns (status: SeqStatus)
      modifies this
      ensures status == Verdict(Lookup(old(last), node), got)
      ensures last == Track(old(last), node, got)
    {
      if node !in last {
        last := last[node := got];
        return FirstSeen;
      }
      var expected := (last[node] + 1) % U64;
      if got == expected {
        last := last[node := got];
        return InOrder;
      }
      if got > expected {
        status := Gap(expected, got, (got - last[node] - 1) % U64);
        last := last[node := got];
        return;
      }
      return Replay(last[node], got);
    }
  }

  function Lookup(last: map<string, U64Value>, node: string): Option<U64Value> {
    if node in last then Some(last[node]) else None
  }

  /** The tracker's map after one observation. */
  function Track(last: map<string, U64Value>, node: string, got: U64Value): map<string, U64Value> {
    if Verdict(Lookup(last, node), got).Replay? then last else last[node := got]
  }

  // ----- One node's observations, accounted for.

  function LastAccepted(obs: seq<U64Value>): (r: Option<U64Value>)
    ensures r.Some? <==> obs != []
  {
    if obs == [] then None else Accepted(LastAccepted(obs[..|obs| - 1]), obs[|obs| - 1])
  }

  /** The verdict on the final observation. */
  function FinalVerdict(obs: seq<U64Value>): SeqStatus
    requires obs != []
  {
    Verdict(LastAccepted(obs[..|obs| - 1]), obs[|obs| - 1])
  }

  function InOrderCount(obs: seq<U64Value>): nat {
    if obs == [] then 0 else InOrderCount(obs[..|obs| - 1]) + if FinalVerdict(obs).InOrder? then 1 else 0
  }

  function GapCount(obs: seq<U64Value>): nat {
    if obs == [] then 0 else GapCount(obs[..|obs| - 1]) + if FinalVerdict(obs).Gap? then 1 else 0
  }

  /** The sum of `missing` over all gap verdicts. */
  function TotalMissing(obs: seq<U64Value>): nat {
    if obs == [] then 0
    else TotalMissing(obs[..|obs| - 1]) + if FinalVerdict(obs).Gap? then FinalVerdict(obs).missing else 0
  }

  /** How many observations were made while the last accepted number was u64::MAX. */
  function Wraps(obs: seq<U64Value>): nat {
    if obs == [] then 0
    else Wraps(obs[..|obs| - 1]) + if LastAccepted(obs[..|obs| - 1]) == Some(MAX) then 1 else 0
  }

  /** One observation moves the last accepted number by what its verdict accounts for. */
  lemma OneStep(last: U64Value, got: U64Value)
    ensures var v := Verdict(Some(last), got);
            Accepted(Some(last), got).value - last + (if last == MAX then U64 else 0)
              == if v.InOrder? then 1 else if v.Gap? then 1 + v.missing else 0
  {
    if last == MAX {
      assert (last + 1) % U64 == 0;
      assert (got - last - 1) % U64 == got by { assert got - last - 1 == -1 * U64 + got; }
    } else {
      assert (last + 1) % U64 == last + 1;
      assert got > last + 1 ==> (got - last - 1) % U64 == got - last - 1;
    }
  }

  /** The books balance up to one whole `u64` range per wrap. */
  lemma {:induction false} Conservation(obs: seq<U64Value>)
    requires obs != []
    ensures LastAccepted(obs).value - obs[0] + U64 * Wraps(obs) == InOrderCount(obs) + GapCount(obs) + TotalMissing(obs)
  {
    var init, got := obs[..|obs| - 1], obs[|obs| - 1];
    if init != [] {
      Conservation(init);
      OneStep(LastAccepted(init).value, got);
      hide Verdict;
      assert init[0] == obs[0];
    }
  }

  lemma {:induction false} WrapsIffMax(obs: seq<U64Value>)
    ensures Wraps(obs) == 0 <==> forall i :: 0 <= i < |obs| - 1 ==> obs[i] != MAX
  {
    if obs != [] {
      var init := obs[..|obs| - 1];
      WrapsIffMax(init);
      if init != [] && obs[|init| - 1] == MAX {
        assert LastAccepted(init) == Some(MAX) by {
          assert init[|init| - 1] == MAX;
        }
      } else if LastAccepted(init) == Some(MAX) {
        AcceptedMax(init);
      }
    }
  }

  lemma {:induction false} AcceptedMax(obs: seq<U64Value>)
    requires LastAccepted(obs) == Some(MAX)
    ensures obs[|obs| - 1] == MAX
  {
  }

  /** Gap accounting is exact precisely when u64::MAX is never followed by another number. */
  lemma ConservedIffNoMax(obs: seq<U64Value>)
    requires obs != []
    ensures LastAccepted(obs).value - obs[0] == InOrderCount(obs) + GapCount(obs) + TotalMissing(obs)
       <==> forall i :: 0 <= i < |obs| - 1 ==> obs[i] != MAX
  {
    Conservation(obs);
    WrapsIffMax(obs);
  }

  /** u64::MAX is never followed by another number. */
  ghost predicate NoWrap(obs: seq<U64Value>) {
    forall i :: 0 <= i < |obs| - 1 ==> obs[i] != MAX
  }

  lemma NoWrapInit(obs: seq<U64Value>)
    requires NoWrap(obs) && obs != []
    ensures NoWrap(obs[..|obs| - 1])
    ensures LastAccepted(obs[..|obs| - 1]) != Some(MAX)
  {
    var init := obs[..|obs| - 1];
    assert forall i :: 0 <= i < |init| ==> init[i] == obs[i] != MAX;
    if LastAccepted(init) == Some(MAX) {
      AcceptedMax(init);
    }
  }

  lemma NoneAccepted(got: U64Value)
    ensures LastAccepted([]) == None && Accepted(None, got) == Some(got)
  {
  }

  lemma {:induction false} NothingAboveLast(obs: seq<U64Value>)
    requires NoWrap(obs) && obs != []
    ensures forall n :: n in obs ==> n <= LastAccepted(obs).value
  {
    hide Verdict, LastAccepted, NoWrap;
    var init, got := obs[..|obs| - 1], obs[|obs| - 1];
    NoWrapInit(obs);
    assert obs == init + [got];
    LastAcceptedSnoc(init, got);
    if init == [] {
      NoneAccepted(got);
    } else {
      NothingAboveLast(init);
      PlainVerdict(LastAccepted(init).value, got);
    }
  }

  /** The numbers from the first observed to the last accepted that never arrived. */
  ghost function Unobserved(obs: seq<U64Value>): set<int>
    requires obs != []
  {
    Holes(obs[0], LastAccepted(obs).value, obs)
  }

  ghost function Holes(first: int, last: int, obs: seq<int>): set<int> {
    set n: int | first <= n <= last && n !in obs
  }

  lemma HolesNext(first: int, last: int, init: seq<int>, got: int)
    requires got == last + 1 && forall n :: n in init ==> n <= last
    ensures Holes(first, got, init + [got]) == Holes(first, last, init)
  {
    assert forall n :: n in init + [got] <==> n in init || n == got;
  }

  lemma HolesJump(first: int, last: int, init: seq<int>, got: int)
    requires first <= last + 1 < got && forall n :: n in init ==> n <= last
    ensures Holes(first, got, init + [got]) == Holes(first, last, init) + Between(last + 1, got)
    ensures |Holes(first, got, init + [got])| == |Holes(first, last, init)| + got - last - 1
  {
    var now, before, gap := Holes(first, got, init + [got]), Holes(first, last, init), Between(last + 1, got);
    forall n ensures n in now <==> n in before || n in gap {
      assert n in init + [got] <==> n in init || n == got;
    }
    assert now == before + gap;
    assert before !! gap;
  }

  lemma HolesFill(first: int, last: int, init: seq<int>, got: int)
    requires got <= last
    ensures Holes(first, last, init + [got]) == Holes(first, last, init) - {got}
  {
    assert forall n :: n in init + [got] <==> n in init || n == got;
  }

  /** Verdicts of `Replay` on a number in range that had not arrived before. */
  function LateArrivals(obs: seq<U64Value>): nat {
    if obs == [] then 0
    else LateArrivals(obs[..|obs| - 1])
         + if FinalVerdict(obs).Replay? && obs[0] <= obs[|obs| - 1] && obs[|obs| - 1] !in obs[..|obs| - 1] then 1 else 0
  }

  /** The integers from `lo` up to but excluding `hi`. */
  ghost function Between(lo: int, hi: int): (r: set<int>)
    ensures forall n :: n in r <==> lo <= n < hi
    ensures |r| == if lo < hi then hi - lo else 0
    decreases hi - lo
  {
    if lo < hi then Between(lo, hi - 1) + {hi - 1} else {}
  }

  /** Short of u64::MAX, the verdict in unbounded arithmetic. */
  lemma PlainVerdict(last: U64Value, got: U64Value)
    requires last != MAX
    ensures Verdict(Some(last), got) ==
      if got == last + 1 then InOrder
      else if got > last + 1 then Gap(last + 1, got, got - last - 1)
      else Replay(last, got)
  {
    assert (last + 1) % U64 == last + 1;
    assert got > last + 1 ==> (got - last - 1) % U64 == got - last - 1;
  }

  lemma LastAcceptedSnoc(init: seq<U64Value>, got: U64Value)
    ensures LastAccepted(init + [got]) == Accepted(LastAccepted(init), got)
  {
    assert (init + [got])[..|init|] == init;
  }

  /** One observation's effect on the numbers that never arrived. */
  lemma UnobservedStep(init: seq<U64Value>, got: U64Value)
    requires init != [] && NoWrap(init + [got])
    ensures var obs := init + [got];
            match FinalVerdict(obs)
            case InOrder => Unobserved(obs) == Unobserved(init)
            case Gap(_, _, missing) => |Unobserved(obs)| == |Unobserved(init)| + missing
            case _ => Unobserved(obs) == Unobserved(init) - {got}
  {
    var obs := init + [got];
    assert obs[..|obs| - 1] == init;
    NoWrapInit(obs);
    NothingAboveLast(init);
    var first, last := init[0], LastAccepted(init).value;
    PlainVerdict(last, got);
    LastAcceptedSnoc(init, got);
    assert obs[0] == first && first in init;
    hide Verdict, LastAccepted, Holes, Between;
    if got == last + 1 {
      HolesNext(first, last, init, got);
    } else if got > last + 1 {
      HolesJump(first, last, init, got);
    } else {
      HolesFill(first, last, init, got);
    }
  }

  lemma OneObserved(got: U64Value)
    ensures Unobserved([got]) == {} && FinalVerdict([got]).FirstSeen?
  {
    assert [got][..0] == [];
  }

  /** After the first observation, the final verdict accepts a number above the last
      or replays one at or below it. */
  lemma FinalIsPlain(init: seq<U64Value>, got: U64Value)
    requires init != [] && LastAccepted(init) != Some(MAX)
    ensures !FinalVerdict(init + [got]).FirstSeen?
    ensures FinalVerdict(init + [got]).Replay? ==>
      (got in Unobserved(init) <==> init[0] <= got && got !in init)
  {
    assert (init + [got])[..|init|] == init;
    PlainVerdict(LastAccepted(init).value, got);
  }

  /** What never arrived, plus what arrived late, is what the gaps announced. */
  lemma {:induction false} MissingAccounted(obs: seq<U64Value>)
    requires NoWrap(obs) && obs != []
    ensures |Unobserved(obs)| + LateArrivals(obs) == TotalMissing(obs)
  {
    hide Verdict, LastAccepted, Unobserved, FinalVerdict, NoWrap;
    var init, got := obs[..|obs| - 1], obs[|obs| - 1];
    assert obs == init + [got];
    if init == [] {
      OneObserved(got);
    } else {
      NoWrapInit(obs);
      MissingAccounted(init);
      UnobservedStep(init, got);
      FinalIsPlain(init, got);
    }
  }

  /** Observation `i` is new and not below the first, yet some number since the
      last u64::MAX was larger. */
  ghost predicate LateAt(obs: seq<U64Value>, i: nat)
    requires i < |obs|
  {
    obs[0] <= obs[i] && obs[i] !in obs[..i] && !LargerThanRecent(obs, i)
  }

  lemma {:induction false} NoLateArrivals(obs: seq<U64Value>)
    ensures LateArrivals(obs) == 0 <==> forall i :: 0 <= i < |obs| ==> !LateAt(obs, i)
  {
    hide FinalVerdict, LargerThanRecent;
    if obs != [] {
      var m := |obs| - 1;
      NoLateArrivals(obs[..m]);
      assert obs[..m + 1] == obs;
      ReplayIff(obs, m);
      assert LateArrivals(obs) == 0 <==> LateArrivals(obs[..m]) == 0 && !LateAt(obs, m);
      forall i | 0 <= i < m ensures LateAt(obs, i) <==> LateAt(obs[..m], i) {
        LateEarlier(obs, m, i);
      }
    }
  }

  lemma LateEarlier(obs: seq<U64Value>, m: nat, i: nat)
    requires i < m <= |obs|
    ensures LateAt(obs, i) <==> LateAt(obs[..m], i)
  {
    assert obs[..m][..i] == obs[..i];
  }

  /** The announced losses bound the real ones, and equal them exactly when no
      number in range arrives for the first time after a larger one. */
  lemma MissingBound(obs: seq<U64Value>)
    requires NoWrap(obs) && obs != []
    ensures |Unobserved(obs)| <= TotalMissing(obs)
    ensures |Unobserved(obs)| == TotalMissing(obs) <==> forall i :: 0 <= i < |obs| ==> !LateAt(obs, i)
  {
    MissingAccounted(obs);
    NoLateArrivals(obs);
  }

  // ----- What a `Replay` verdict says.

  /** The numbers observed after the last u64::MAX. */
  function SinceMax(obs: seq<U64Value>): seq<U64Value> {
    if obs == [] || obs[|obs| - 1] == MAX then [] else SinceMax(obs[..|obs| - 1]) + [obs[|obs| - 1]]
  }

  ghost predicate IsLargest(m: U64Value, s: seq<U64Value>) {
    m in s && forall n :: n in s ==> n <= m
  }

  lemma LargestSnoc(s: seq<U64Value>, m: U64Value, got: U64Value)
    requires IsLargest(m, s)
    ensures IsLargest(if got > m then got else m, s + [got])
  {
    assert forall n :: n in s + [got] <==> n in s || n == got;
  }

  /** The last number accepted is the largest since the last u64::MAX, or that
      very number. */
  lemma {:induction false} LastIsLargest(obs: seq<U64Value>)
    requires obs != []
    ensures var last := LastAccepted(obs).value;
            if SinceMax(obs) == [] then last == MAX else last != MAX && IsLargest(last, SinceMax(obs))
  {
    hide Verdict, LastAccepted, IsLargest;
    var init, got := obs[..|obs| - 1], obs[|obs| - 1];
    assert obs == init + [got];
    LastAcceptedSnoc(init, got);
    if init == [] {
      NoneAccepted(got);
      OneIsLargest(got);
      assert SinceMax([]) == [];
    } else {
      LastIsLargest(init);
      var last := LastAccepted(init).value;
      if last == MAX {
        AcceptedAfterMax(got);
        OneIsLargest(got);
      } else {
        PlainVerdict(last, got);
        LargestSnoc(SinceMax(init), last, got);
      }
    }
  }

  lemma OneIsLargest(got: U64Value)
    ensures IsLargest(got, [got]) && [] + [got] == [got]
  {
  }

  lemma AcceptedAfterMax(got: U64Value)
    ensures Accepted(Some(MAX), got) == Some(got) && !Verdict(Some(MAX), got).Replay?
  {
    assert (MAX + 1) % U64 == 0;
  }

  predicate ReplayAt(obs: seq<U64Value>, i: nat)
    requires i < |obs|
  {
    FinalVerdict(obs[..i + 1]).Replay?
  }

  /** An observation larger than all that arrived since the last u64::MAX. */
  ghost predicate LargerThanRecent(obs: seq<U64Value>, i: nat)
    requires i < |obs|
  {
    forall n :: n in SinceMax(obs[..i]) ==> n < obs[i]
  }

  /** An observation is called a replay exactly when some number since the last
      u64::MAX was at least as large, whether or not it was observed before. */
  lemma ReplayIff(obs: seq<U64Value>, i: nat)
    requires i < |obs|
    ensures ReplayAt(obs, i) <==> !LargerThanRecent(obs, i)
  {
    hide LastAccepted, Verdict, IsLargest, SinceMax, FinalVerdict;
    var init, got := obs[..i], obs[i];
    assert obs[..i + 1] == init + [got];
    VerdictAfter(init, got);
    NothingObserved(got);
    if init != [] {
      LastIsLargest(init);
      var last := LastAccepted(init).value;
      if last == MAX {
        AcceptedAfterMax(got);
      } else {
        PlainVerdict(last, got);
        BelowLargest(last, SinceMax(init), got);
      }
    }
  }

  lemma VerdictAfter(init: seq<U64Value>, got: U64Value)
    ensures FinalVerdict(init + [got]) == Verdict(LastAccepted(init), got)
  {
    assert (init + [got])[..|init|] == init;
  }

  lemma BelowLargest(m: U64Value, s: seq<U64Value>, got: U64Value)
    requires IsLargest(m, s)
    ensures (forall n :: n in s ==> n < got) <==> m < got
  {
  }

  lemma NothingObserved(got: U64Value)
    ensures LastAccepted([]) == None && Verdict(None, got) == FirstSeen && SinceMax([]) == []
  {
  }

  /** So a `Replay` verdict means a number already processed, for every such
      verdict of a run, exactly when every number that is new on arrival is
      larger than all that arrived since the last u64::MAX. */
  lemma ReplayMeansProcessedIff(obs: seq<U64Value>)
    ensures (forall i :: 0 <= i < |obs| && ReplayAt(obs, i) ==> obs[i] in obs[..i])
       <==> (forall i :: 0 <= i < |obs| && obs[i] !in obs[..i] ==> LargerThanRecent(obs, i))
  {
    hide ReplayAt, LargerThanRecent;
    forall i | 0 <= i < |obs| ensures ReplayAt(obs, i) <==> !LargerThanRecent(obs, i) {
      ReplayIff(obs, i);
    }
  }

  /** The smallest run in which it means something else: 3 was never processed. */
  lemma ReplayOfNewNumber()
    ensures var obs: seq<U64Value> := [5, 3]; ReplayAt(obs, 1) && obs[1] !in obs[..1]
  {
    var obs: seq<U64Value> := [5, 3];
    assert obs[..1] == [5] && [5][..0] == [];
    assert SinceMax([]) == [] && SinceMax([5]) == [5];
    assert 5 in SinceMax(obs[..1]) && obs[1] == 3;
    ReplayIff(obs, 1);
  }

  // ----- Many nodes.

  /** The tracker's map after a log of observations from all nodes. */
  function TrackLog(log: seq<(string, U64Value)>): map<string, U64Value> {
    if log == [] then map[] else
      var o := log[|log| - 1];
      Track(TrackLog(log[..|log| - 1]), o.0, o.1)
  }

  /** One node's share of the log. */
  function Project(log: seq<(string, U64Value)>, node: string): seq<U64Value> {
    if log == [] then []
    else Project(log[..|log| - 1], node) + if log[|log| - 1].0 == node then [log[|log| - 1].1] else []
  }

  /** Nodes do not disturb one another: the map holds for each node what its own
      observations alone would give. */
  lemma {:induction false} NodesIndependent(log: seq<(string, U64Value)>, node: string)
    ensures Lookup(TrackLog(log), node) == LastAccepted(Project(log, node))
  {
    if log != [] {
      var init, o := log[..|log| - 1], log[|log| - 1];
      NodesIndependent(init, node);
      if o.0 == node {
        LastAcceptedSnoc(Project(init, node), o.1);
      } else {
        assert Project(log, node) == Project(init, node);
      }
    }
  }

  // ----- The counters over all nodes.

  /** The verdict on the last observation of a log. */
  function LastVerdict(log: seq<(string, U64Value)>): SeqStatus
    requires log != []
  {
    Verdict(Lookup(TrackLog(log[..|log| - 1]), log[|log| - 1].0), log[|log| - 1].1)
  }

  function LogGaps(log: seq<(string, U64Value)>): nat {
    if log == [] then 0 else LogGaps(log[..|log| - 1]) + if LastVerdict(log).Gap? then 1 else 0
  }

  function LogMissing(log: seq<(string, U64Value)>): nat {
    if log == [] then 0
    else LogMissing(log[..|log| - 1]) + if LastVerdict(log).Gap? then LastVerdict(log).missing else 0
  }

  ghost function Sum(nodes: set<string>, f: string -> nat): nat {
    if nodes == {} then 0 else
      var n :| n in nodes;
      f(n) + Sum(nodes - {n}, f)
  }

  lemma {:induction false} SumSplit(nodes: set<string>, f: string -> nat, x: string)
    requires x in nodes
    ensures Sum(nodes, f) == f(x) + Sum(nodes - {x}, f)
    decreases |nodes|
  {
    var n :| n in nodes && Sum(nodes, f) == f(n) + Sum(nodes - {n}, f);
    if n != x {
      SumSplit(nodes - {n}, f, x);
      SumSplit(nodes - {x}, f, n);
      assert nodes - {n} - {x} == nodes - {x} - {n};
    }
  }

  lemma {:induction false} SumAgree(nodes: set<string>, f: string -> nat, g: string -> nat)
    requires forall n :: n in nodes ==> f(n) == g(n)
    ensures Sum(nodes, f) == Sum(nodes, g)
    decreases |nodes|
  {
    if nodes != {} {
      var n :| n in nodes;
      SumSplit(nodes, f, n);
      SumSplit(nodes, g, n);
      SumAgree(nodes - {n}, f, g);
    }
  }

  /** When only `x` changes, the sum changes by as much. */
  lemma SumChange(nodes: set<string>, f: string -> nat, g: string -> nat, x: string)
    requires x in nodes && forall n :: n in nodes && n != x ==> f(n) == g(n)
    ensures Sum(nodes, g) == Sum(nodes, f) - f(x) + g(x)
  {
    SumSplit(nodes, f, x);
    SumSplit(nodes, g, x);
    SumAgree(nodes - {x}, f, g);
  }

  lemma {:induction false} SumZero(nodes: set<string>, f: string -> nat)
    requires forall n :: n in nodes ==> f(n) == 0
    ensures Sum(nodes, f) == 0
    decreases |nodes|
  {
    if nodes != {} {
      var n :| n in nodes;
      SumSplit(nodes, f, n);
      SumZero(nodes - {n}, f);
    }
  }

  lemma LastVerdictOfNode(log: seq<(string, U64Value)>)
    requires log != []
    ensures var o := log[|log| - 1];
            Project(log, o.0) == Project(log[..|log| - 1], o.0) + [o.1] && LastVerdict(log) == FinalVerdict(Project(log, o.0))
    ensures forall n :: n != log[|log| - 1].0 ==> Project(log, n) == Project(log[..|log| - 1], n)
  {
    hide Verdict, Track, LastAccepted;
    var init, o := log[..|log| - 1], log[|log| - 1];
    NodesIndependent(init, o.0);
    VerdictAfter(Project(init, o.0), o.1);
  }

  /** The collector's gap counters are the sums of what each node's own
      observations account for. */
  lemma {:induction false} LogTotals(log: seq<(string, U64Value)>, nodes: set<string>)
    requires forall o :: o in log ==> o.0 in nodes
    ensures LogGaps(log) == Sum(nodes, n => GapCount(Project(log, n)))
    ensures LogMissing(log) == Sum(nodes, n => TotalMissing(Project(log, n)))
  {
    hide LastVerdict, FinalVerdict;
    if log == [] {
      SumZero(nodes, n => GapCount(Project(log, n)));
      SumZero(nodes, n => TotalMissing(Project(log, n)));
    } else {
      var init, o := log[..|log| - 1], log[|log| - 1];
      LogTotals(init, nodes);
      LastVerdictOfNode(log);
      GapsSnoc(Project(init, o.0), o.1);
      SumChange(nodes, n => GapCount(Project(init, n)), n => GapCount(Project(log, n)), o.0);
      SumChange(nodes, n => TotalMissing(Project(init, n)), n => TotalMissing(Project(log, n)), o.0);
    }
  }

  lemma GapsSnoc(init: seq<U64Value>, got: U64Value)
    ensures var v := FinalVerdict(init + [got]);
            && GapCount(init + [got]) == GapCount(init) + (if v.Gap? then 1 else 0)
            && TotalMissing(init + [got]) == TotalMissing(init) + if v.Gap? then v.missing else 0
  {
    assert (init + [got])[..|init|] == init;
  }
}
