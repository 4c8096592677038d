/** The spool's contents seen as what they are for: pending records in the
    order of their sequence numbers. */
module PendingLog {
  import opened Basics

  lemma {:induction false} FindLeast(s: set<nat>) returns (m: nat)
    requires s != {}
    ensures m in s && forall x :: x in s ==> m <= x
  {
    m :| m in s;
    if s != {m} {
      var other := FindLeast(s - {m});
      forall x | x in s ensures x == m || other <= x {
        if x != m {
          assert x in s - {m};
        }
      }
      m := if m < other then m else other;
    }
  }

  ghost function Least(s: set<nat>): (m: nat)
    requires s != {}
    ensures m in s && forall x :: x in s ==> m <= x
  {
    assert exists m :: m in s && forall x :: x in s ==> m <= x by {
      var m := FindLeast(s);
      assert m in s && forall x :: x in s ==> m <= x;
    }
    var m :| m in s && forall x :: x in s ==> m <= x;
    m
  }

  ghost predicate Ascending(r: seq<nat>) {
    forall i, j :: 0 <= i < j < |r| ==> r[i] < r[j]
  }

  /** All members, smallest first. */
  ghost function Sorted(s: set<nat>): (r: seq<nat>)
    ensures |r| == |s|
    ensures forall x :: x in r <==> x in s
    decreases |s|
  {
    if s == {} then [] else
      var m := Least(s);
      [m] + Sorted(s - {m})
  }

  lemma NothingAscending()
    ensures Ascending([])
  {
  }

  lemma AscendingCons(m: nat, rest: seq<nat>)
    requires Ascending(rest) && forall x :: x in rest ==> m < x
    ensures Ascending([m] + rest)
  {
    var r := [m] + rest;
    forall i, j | 0 <= i < j < |r| ensures r[i] < r[j] {
      assert r[j] == rest[j - 1] && rest[j - 1] in rest;
    }
  }

  lemma {:induction false} SortedAscending(s: set<nat>)
    ensures Ascending(Sorted(s))
    decreases |s|
  {
    hide Ascending;
    if s == {} {
      NothingAscending();
    } else {
      var m := Least(s);
      SortedAscending(s - {m});
      AscendingCons(m, Sorted(s - {m}));
    }
  }

  /** The `n` oldest sequence numbers, oldest first. */
  ghost function Oldest(s: set<nat>, n: nat): (r: seq<nat>)
    ensures |r| == Min(n, |s|)
    ensures forall x :: x in r ==> x in s
  {
    Prefix(Sorted(s), n)
  }

  lemma OldestAscending(s: set<nat>, n: nat)
    ensures Ascending(Oldest(s, n))
  {
    SortedAscending(s);
  }

  lemma AscendingSplit(r: seq<nat>, m: nat, taken: nat, left: nat)
    requires Ascending(r) && m <= |r| && taken in r[..m] && left in r && left !in r[..m]
    ensures taken < left
  {
    assert forall j :: 0 <= j < m ==> r[j] in r[..m];
    var i :| 0 <= i < m && r[..m][i] == taken;
    var j :| 0 <= j < |r| && r[j] == left;
    assert r[i] < r[j];
  }

  /** What `Oldest` leaves behind is younger than everything it takes. */
  lemma OldestAreSmallest(s: set<nat>, n: nat, taken: nat, left: nat)
    requires taken in Oldest(s, n) && left in s && left !in Oldest(s, n)
    ensures taken < left
  {
    hide Sorted, Ascending;
    var r, m := Sorted(s), |Oldest(s, n)|;
    SortedAscending(s);
    assert Oldest(s, n) == r[..m];
    AscendingSplit(r, m, taken, left);
  }

  lemma LeastIs(s: set<nat>, m: nat)
    requires m in s && forall x :: x in s ==> m <= x
    ensures Least(s) == m
  {
  }

  lemma AscendingRest(r: seq<nat>, k: nat)
    requires Ascending(r) && k < |r|
    ensures r[k] in Elements(r) - Elements(r[..k])
    ensures forall x :: x in Elements(r) - Elements(r[..k]) ==> r[k] <= x
  {
    assert r[k] in r;
    forall i | 0 <= i < k ensures r[..k][i] != r[k] {
      assert r[..k][i] == r[i];
    }
    assert forall j :: 0 <= j < k ==> r[j] in r[..k];
    forall x | x in Elements(r) - Elements(r[..k]) ensures r[k] <= x {
      var j :| 0 <= j < |r| && r[j] == x;
    }
  }

  lemma OldestNext(s: set<nat>, k: nat)
    requires k < |s|
    ensures var rest := s - Elements(Oldest(s, k));
            rest != {} && Oldest(s, k + 1) == Oldest(s, k) + [Least(rest)]
  {
    hide Sorted, Ascending, Least;
    var r := Sorted(s);
    SortedAscending(s);
    assert Elements(r) == s;
    assert r[..|r|] == r;
    AscendingRest(r, k);
    LeastIs(s - Elements(r[..k]), r[k]);
    assert r[..k + 1] == r[..k] + [r[k]];
  }

  /** The pending records once the `k` oldest have been evicted. */
  ghost function Evict<T>(pending: map<nat, T>, k: nat): map<nat, T> {
    pending - Elements(Oldest(pending.Keys, k))
  }

  lemma EvictFrame<T>(pending: map<nat, T>, k: nat)
    ensures Evict(pending, k).Keys <= pending.Keys
    ensures forall n :: n in Evict(pending, k) ==> Evict(pending, k)[n] == pending[n]
  {
  }

  lemma EvictNone<T>(pending: map<nat, T>)
    ensures Evict(pending, 0) == pending
  {
    assert Elements(Oldest(pending.Keys, 0)) == {};
  }

  /** Evicting one more removes the smallest remaining sequence number. */
  lemma EvictNext<T>(pending: map<nat, T>, k: nat)
    requires k < |pending.Keys|
    ensures var now := Evict(pending, k);
            now.Keys != {} && Evict(pending, k + 1) == now - {Least(now.Keys)}
  {
    OldestNext(pending.Keys, k);
    var now := Evict(pending, k);
    assert now.Keys == pending.Keys - Elements(Oldest(pending.Keys, k));
    assert Elements(Oldest(pending.Keys, k + 1)) == Elements(Oldest(pending.Keys, k)) + {Least(now.Keys)};
  }

  /** Eviction cuts off a prefix of exactly `k` records: every evicted number is
      below every survivor, and survivors keep their contents. */
  lemma EvictCutsPrefix<T>(pending: map<nat, T>, k: nat)
    requires k <= |pending.Keys|
    ensures Evict(pending, k).Keys <= pending.Keys
    ensures |pending.Keys - Evict(pending, k).Keys| == k
    ensures forall gone, kept :: gone in pending.Keys - Evict(pending, k).Keys && kept in Evict(pending, k).Keys ==> gone < kept
    ensures forall kept :: kept in Evict(pending, k) ==> Evict(pending, k)[kept] == pending[kept]
  {
    var r := Oldest(pending.Keys, k);
    assert pending.Keys - Evict(pending, k).Keys == Elements(r);
    OldestAscending(pending.Keys, k);
    AscendingCount(r);
    forall gone, kept | gone in pending.Keys - Evict(pending, k).Keys && kept in Evict(pending, k).Keys
      ensures gone < kept
    {
      OldestAreSmallest(pending.Keys, k, gone, kept);
    }
  }

  lemma {:induction false} AscendingCount(r: seq<nat>)
    requires Ascending(r)
    ensures |Elements(r)| == |r|
  {
    if r != [] {
      var m := |r| - 1;
      AscendingCount(r[..m]);
      assert Elements(r) == Elements(r[..m]) + {r[m]};
      assert r[m] !in r[..m];
    }
  }

  lemma EvictSize<T>(pending: map<nat, T>, k: nat)
    requires k <= |pending.Keys|
    ensures |Evict(pending, k).Keys| == |pending.Keys| - k
    ensures Evict(pending, k).Keys == {} <==> k == |pending.Keys|
  {
    hide Evict, Oldest;
    EvictCutsPrefix(pending, k);
    assert pending.Keys == (pending.Keys - Evict(pending, k).Keys) + Evict(pending, k).Keys;
  }

  /** Evicting twice is evicting once. */
  lemma {:induction false} EvictTwice<T>(pending: map<nat, T>, k: nat, m: nat)
    requires k + m <= |pending.Keys|
    ensures Evict(Evict(pending, k), m) == Evict(pending, k + m)
  {
    hide Evict, Oldest, Sorted, Elements, Least;
    EvictSize(pending, k);
    if m == 0 {
      EvictNone(Evict(pending, k));
    } else {
      EvictTwice(pending, k, m - 1);
      EvictNext(Evict(pending, k), m - 1);
      EvictNext(pending, k + m - 1);
    }
  }
}
