/** The sensor's durable write-ahead log (node/internal/spool/spool.go).

    The database is an ordered bucket of byte-string keys. Its transactions are
    all-or-nothing; whether a call into it succeeds, and what size it reports,
    are inputs to the methods below. */
module Spools {
  import opened Basics
  import opened BigEndian
  import opened PendingLog

  type Blob = seq<Byte>

  /** A set of pending records handed to a publisher. */
  datatype Batch = Batch(keys: seq<seq<Byte>>, blobs: seq<Blob>)

  /** The bucket read as sequence numbers instead of 8-byte keys. */
  ghost function Numbered(events: map<seq<Byte>, Blob>): map<nat, Blob> {
    map n: nat | n < U64 && Key(n) in events :: events[Key(n)]
  }

  ghost predicate AllKeysEightBytes(events: map<seq<Byte>, Blob>) {
    forall k :: k in events ==> |k| == 8
  }

  lemma KeyNumber(k: seq<Byte>)
    requires |k| == 8
    ensures Get(k) < U64 && Key(Get(k)) == k
  {
    Pow256Eight();
    GetBounded(k);
    PutGet(k);
  }

  lemma NumberedPut(events: map<seq<Byte>, Blob>, n: nat, v: Blob)
    requires n < U64
    ensures Numbered(events[Key(n) := v]) == Numbered(events)[n := v]
    ensures |Key(n)| == 8
  {
    forall m: nat | m < U64 ensures Key(m) == Key(n) <==> m == n { KeyOrder(m, n); }
  }

  lemma NumberedDelete(events: map<seq<Byte>, Blob>, k: seq<Byte>)
    requires |k| == 8
    ensures Numbered(events - {k}) == Numbered(events) - {Get(k)}
  {
    hide Put, Get, Key, Before;
    forall m: nat | m < U64 ensures Key(m) == k <==> m == Get(k) { KeyOfNumber(m, k); }
    KeyNumber(k);
  }

  lemma KeyOfNumber(m: nat, k: seq<Byte>)
    requires m < U64 && |k| == 8
    ensures Key(m) == k <==> m == Get(k)
  {
    hide Put, Get, Before;
    KeyNumber(k);
    KeyOrder(m, Get(k));
  }

  /** The cursor's first key in byte order carries the smallest number. */
  lemma FirstIsLeast(events: map<seq<Byte>, Blob>, k: seq<Byte>)
    requires AllKeysEightBytes(events)
    requires k in events && forall x :: x in events ==> x == k || Before(k, x)
    ensures Numbered(events).Keys != {} && Get(k) == Least(Numbered(events).Keys)
  {
    KeyNumber(k);
    assert Get(k) in Numbered(events);
    forall n | n in Numbered(events).Keys ensures Get(k) <= n {
      KeyOrder(Get(k), n);
    }
  }

  lemma FirstExists(events: map<seq<Byte>, Blob>)
    requires AllKeysEightBytes(events) && events.Keys != {}
    ensures exists k :: k in events && forall x :: x in events ==> x == k || Before(k, x)
  {
    var some :| some in events;
    KeyNumber(some);
    assert Get(some) in Numbered(events);
    var k := Key(Least(Numbered(events).Keys));
    forall x | x in events ensures x == k || Before(k, x) {
      KeyNumber(x);
      assert Get(x) in Numbered(events);
      KeyOrder(Least(Numbered(events).Keys), Get(x));
    }
  }

  lemma FirstUnique(events: map<seq<Byte>, Blob>)
    requires AllKeysEightBytes(events)
    ensures forall k, l :: k in events.Keys && l in events.Keys && Before(k, l) ==> !Before(l, k)
  {
    forall k, l | k in events.Keys && l in events.Keys && Before(k, l) ensures !Before(l, k) {
      BeforeIsLess(k, l);
      BeforeIsLess(l, k);
    }
  }

  /** `Cursor.First`. */
  function First(events: map<seq<Byte>, Blob>): (k: Option<seq<Byte>>)
    requires AllKeysEightBytes(events)
    ensures k.None? <==> Numbered(events).Keys == {}
    ensures k.Some? ==> k.value in events && Numbered(events).Keys != {} && Get(k.value) == Least(Numbered(events).Keys)
  {
    if events.Keys == {} then
      assert Numbered(events).Keys == {};
      None
    else
      FirstExists(events);
      FirstUnique(events);
      var first :| first in events.Keys && forall x :: x in events.Keys ==> x == first || Before(first, x);
      FirstIsLeast(events, first);
      Some(first)
  }

  /** One turn of that loop, where `k` records are gone already. */
  lemma EvictStep(pending: map<nat, Blob>, b: map<seq<Byte>, Blob>, k: nat)
    requires AllKeysEightBytes(b) && k <= |pending.Keys| && Numbered(b) == Evict(pending, k)
    ensures First(b).None? ==> k == |pending.Keys|
    ensures First(b).Some? ==>
      var c := DeleteKey(b, First(b).value);
      k < |pending.Keys| && AllKeysEightBytes(c) && Numbered(c) == Evict(pending, k + 1)
  {
    hide Evict, Numbered, Oldest, Get, Key, Least, Before;
    EvictSize(pending, k);
    if First(b).Some? {
      EvictFirst(pending, b, k, First(b).value);
    }
  }

  /** On each of the first `k` tests the database is too large for the new record, and
      each of the first `k` deletions works. */
  ghost predicate TooLarge(size: nat -> int, deleteFails: nat -> bool, need: nat, maxBytes: int, k: nat) {
    forall i :: 0 <= i < k ==> size(i) + need > maxBytes && !deleteFails(i)
  }

  lemma NotTooLarge(size: nat -> int, deleteFails: nat -> bool, need: nat, maxBytes: int)
    ensures TooLarge(size, deleteFails, need, maxBytes, 0)
  {
  }

  lemma StillTooLarge(size: nat -> int, deleteFails: nat -> bool, need: nat, maxBytes: int, k: nat)
    requires TooLarge(size, deleteFails, need, maxBytes, k) && size(k) + need > maxBytes && !deleteFails(k)
    ensures TooLarge(size, deleteFails, need, maxBytes, k + 1)
  {
  }

  /** `Append`'s loop: delete the first key until the size oracle says the new
      record fits, the bucket is empty, or a deletion errs. */
  method MakeRoom(events: map<seq<Byte>, Blob>, need: nat, maxBytes: int, size: nat -> int, deleteFails: nat -> bool)
    returns (b: map<seq<Byte>, Blob>, k: nat, failed: bool)
    requires AllKeysEightBytes(events)
    ensures AllKeysEightBytes(b) && k <= |Numbered(events).Keys|
    ensures Numbered(b) == Evict(Numbered(events), k)
    ensures TooLarge(size, deleteFails, need, maxBytes, k)
    ensures failed ==> deleteFails(k) && size(k) + need > maxBytes && k < |Numbered(events).Keys|
    ensures !failed ==> size(k) + need <= maxBytes || k == |Numbered(events).Keys|
  {
    hide TooLarge, AllKeysEightBytes, Evict, Numbered, First;
    b, k, failed := events, 0, false;
    EvictNone(Numbered(events));
    NotTooLarge(size, deleteFails, need, maxBytes);
    while size(k) + need > maxBytes
      invariant AllKeysEightBytes(b) && k <= |Numbered(events).Keys|
      invariant Numbered(b) == Evict(Numbered(events), k)
      invariant TooLarge(size, deleteFails, need, maxBytes, k)
      decreases |b.Keys|
    {
      var first := First(b);
      EvictStep(Numbered(events), b, k);
      if first == None {
        return;
      }
      if deleteFails(k) {
        failed := true;
        return;
      }
      StillTooLarge(size, deleteFails, need, maxBytes, k);
      b := DeleteKey(b, first.value);
      k := k + 1;
    }
  }

  /** `Bucket.Delete` of a key that is present. */
  function DeleteKey(b: map<seq<Byte>, Blob>, k: seq<Byte>): (r: map<seq<Byte>, Blob>)
    requires k in b
    ensures r == b - {k} && r.Keys == b.Keys - {k} && |r.Keys| < |b.Keys|
  {
    assert (b - {k}).Keys == b.Keys - {k};
    b - {k}
  }

  /** Deleting the first key of what is left after `k` evictions is eviction `k + 1`. */
  lemma EvictFirst(pending: map<nat, Blob>, b: map<seq<Byte>, Blob>, k: nat, first: seq<Byte>)
    requires AllKeysEightBytes(b) && first in b && Numbered(b).Keys != {} && Get(first) == Least(Numbered(b).Keys)
    requires k < |pending.Keys| && Numbered(b) == Evict(pending, k)
    ensures Numbered(DeleteKey(b, first)) == Evict(pending, k + 1)
    ensures Oldest(pending.Keys, k + 1) == Oldest(pending.Keys, k) + [Get(first)]
  {
    EvictNext(pending, k);
    OldestNext(pending.Keys, k);
    assert Evict(pending, k).Keys == pending.Keys - Elements(Oldest(pending.Keys, k));
    NumberedDelete(b, first);
  }

  /** The sequence numbers that a list of keys stands for. */
  function Numbers(keys: seq<seq<Byte>>): seq<nat> {
    seq(|keys|, i requires 0 <= i < |keys| => Get(keys[i]))
  }

  /** Every key of a batch is a stored key, paired with the blob stored under it. */
  ghost predicate IsBatch(events: map<seq<Byte>, Blob>, batch: Batch) {
    |batch.keys| == |batch.blobs| &&
    forall i :: 0 <= i < |batch.keys| ==>
      |batch.keys[i]| == 8 && batch.keys[i] in events && batch.blobs[i] == events[batch.keys[i]]
  }

  /** A batch of the `m` oldest holds the blob of each of them, and acknowledging
      its keys is evicting them. */
  lemma BatchCovers(events: map<seq<Byte>, Blob>, batch: Batch, m: nat)
    requires AllKeysEightBytes(events) && IsBatch(events, batch) && m <= |Numbered(events).Keys|
    requires Numbers(batch.keys) == Oldest(Numbered(events).Keys, m)
    ensures |batch.keys| == |batch.blobs| == m
    ensures Numbered(events) - Elements(Numbers(batch.keys)) == Evict(Numbered(events), m)
    ensures forall n :: n in Numbered(events) && n !in Evict(Numbered(events), m) ==> Numbered(events)[n] in batch.blobs
    ensures forall b :: b in batch.blobs ==> b in Numbered(events).Values
  {
    assert |Numbers(batch.keys)| == m;
    forall n | n in Numbered(events) && n !in Evict(Numbered(events), m) ensures Numbered(events)[n] in batch.blobs {
      assert n in Numbers(batch.keys);
      var i :| 0 <= i < |batch.keys| && Get(batch.keys[i]) == n;
      KeyNumber(batch.keys[i]);
      assert batch.blobs[i] == Numbered(events)[n];
    }
    forall b | b in batch.blobs ensures b in Numbered(events).Values {
      var i :| 0 <= i < |batch.blobs| && batch.blobs[i] == b;
      KeyNumber(batch.keys[i]);
      assert Numbered(events)[Get(batch.keys[i])] == b;
    }
  }

  lemma NumbersSnoc(keys: seq<seq<Byte>>, k: seq<Byte>)
    ensures Numbers(keys + [k]) == Numbers(keys) + [Get(k)]
  {
  }

  lemma NumbersOfPrefix(keys: seq<seq<Byte>>, i: nat)
    requires i <= |keys|
    ensures Elements(Numbers(keys[..0])) == {}
    ensures i < |keys| ==> Elements(Numbers(keys[..i + 1])) == Elements(Numbers(keys[..i])) + {Get(keys[i])}
  {
    if i < |keys| {
      assert keys[..i + 1] == keys[..i] + [keys[i]];
      NumbersSnoc(keys[..i], keys[i]);
      assert Elements(Numbers(keys[..i]) + [Get(keys[i])]) == Elements(Numbers(keys[..i])) + {Get(keys[i])};
    }
  }

  lemma OldestNone(s: set<nat>)
    ensures Oldest(s, 0) == [] == Numbers([])
  {
  }

  lemma OldestCapped(s: set<nat>, n: nat)
    ensures Oldest(s, n) == Oldest(s, Min(n, |s|))
  {
  }

  /** `Peek`'s cursor walk. */
  method Collect(events: map<seq<Byte>, Blob>, n: int) returns (batch: Batch)
    requires AllKeysEightBytes(events)
    ensures IsBatch(events, batch)
    ensures Numbers(batch.keys) == Oldest(Numbered(events).Keys, if n < 0 then 0 else n)
  {
    hide Evict, Numbered, Oldest, Sorted, Elements, Numbers, Get, Put, Key, Least, Before, IsBatch;
    batch := Batch([], []);
    var rest := events;
    ghost var all: set<nat> := Numbered(events).Keys;
    ghost var most: nat := if n < 0 then 0 else n;
    EvictNone(Numbered(events));
    OldestNone(all);
    EmptyBatch(events);
    while |batch.keys| < n
      invariant |batch.keys| <= |all| && |batch.keys| <= most
      invariant AllKeysEightBytes(rest) && rest.Keys <= events.Keys
      invariant forall k :: k in rest ==> rest[k] == events[k]
      invariant Numbered(rest) == Evict(Numbered(events), |batch.keys|)
      invariant IsBatch(events, batch)
      invariant Numbers(batch.keys) == Oldest(all, |batch.keys|)
    {
      var k := First(rest);
      EvictSize(Numbered(events), |batch.keys|);
      if k == None {
        OldestCapped(all, most);
        return;
      }
      EvictFirst(Numbered(events), rest, |batch.keys|, k.value);
      NumbersSnoc(batch.keys, k.value);
      BatchSnoc(events, batch, k.value);
      batch := Batch(batch.keys + [k.value], batch.blobs + [rest[k.value]]);
      rest := DeleteKey(rest, k.value);
    }
  }

  lemma EmptyBatch(events: map<seq<Byte>, Blob>)
    ensures IsBatch(events, Batch([], []))
  {
  }

  lemma BatchSnoc(events: map<seq<Byte>, Blob>, batch: Batch, k: seq<Byte>)
    requires IsBatch(events, batch) && k in events && |k| == 8
    ensures IsBatch(events, Batch(batch.keys + [k], batch.blobs + [events[k]]))
  {
  }

  /** The number after `n`; `uint64` addition wraps. */
  function Following(n: nat): (next: nat)
    ensures next < U64
  {
    (n + 1) % U64
  }

  class Spool {
    var meta: Option<seq<Byte>>
    var events: map<seq<Byte>, Blob>
    var dropped: nat
    const maxBytes: int

    ghost predicate Valid()
      reads this`events
    {
      AllKeysEightBytes(events)
    }

    /** The pending records by sequence number. */
    ghost function Pending(): map<nat, Blob>
      reads this`events
    {
      Numbered(events)
    }

    /** The persisted counter; anything but eight bytes reads as zero. */
    function Counter(): (n: nat)
      reads this`meta
      ensures n < U64
    {
      if meta.Some? && |meta.value| == 8 then
        KeyNumber(meta.value);
        Get(meta.value)
      else 0
    }

    /** `Open` on a fresh file. */
    constructor (maxBytes: int)
      ensures Valid() && Pending() == map[] && Counter() == 0 && dropped == 0 && this.maxBytes == maxBytes
    {
      this.maxBytes := maxBytes;
      meta, events, dropped := None, map[], 0;
    }

    /** Reopening after a restart: the buckets survive, `dropped` does not. */
    method Reopen()
      requires Valid()
      modifies this`dropped
      ensures Valid() && dropped == 0
    {
      dropped := 0;
    }

    /** Reserves and persists the next sequence number; `uint64` addition wraps. */
    method NextSeq(commits: bool) returns (r: Option<nat>)
      modifies this`meta
      ensures r.Some? <==> commits
      ensures r.Some? ==> r.value == Following(old(Counter())) && Counter() == r.value
      ensures r.None? ==> meta == old(meta)
    {
      var cur := Counter();
      cur := Following(cur);
      KeyOrder(cur, cur);
      if !commits {
        return None;
      }
      meta := Some(Key(cur));
      return Some(cur);
    }

    /** The storing transaction of `Append`: evict from the head until the record
        fits, then put it. `size` is what `tx.Size()` answers on each loop test,
        `deleteFails` which deletion errs, `commits` whether put and commit succeed.
        A rolled-back transaction still leaves its evictions in `dropped`. */
    method Store(n: nat, blob: Blob, size: nat -> int, deleteFails: nat -> bool, commits: bool) returns (ok: bool)
      requires Valid() && n < U64
      modifies this`events, this`dropped
      ensures Valid() && old(dropped) <= dropped <= old(dropped) + |old(Pending()).Keys|
      ensures Evicts(size, deleteFails, commits, |blob|, old(Pending()), dropped - old(dropped), ok)
      ensures ok ==> Pending() == Evict(old(Pending()), dropped - old(dropped))[n := blob]
      ensures !ok ==> events == old(events)
    {
      hide Evict, Numbered, Oldest, Sorted, Elements, Numbers, Get, Put, Key, Least, Before;
      var b, k, failed := MakeRoom(events, |blob|, maxBytes, size, deleteFails);
      dropped := dropped + k;
      if failed || !commits {
        return false;
      }
      NumberedPut(b, n, blob);
      events := b[Key(n) := blob];
      return true;
    }

    /** How many of the pending records give way to a new one, and whether it is stored:
        the first `k` tests find the database too large and the deletions after them
        work, until it fits or none is left, or a deletion errs. */
    ghost predicate Evicts(
      size: nat -> int, deleteFails: nat -> bool, commits: bool, need: nat, pending: map<nat, Blob>, k: nat, ok: bool)
    {
      var fits := size(k) + need <= maxBytes || k == |pending.Keys|;
      && k <= |pending.Keys| && TooLarge(size, deleteFails, need, maxBytes, k)
      && (fits || deleteFails(k)) && (ok <==> commits && fits)
    }

    /** Assigns a sequence number, stamps it into the envelope, and stores the
        result. `marshal` renders the envelope once stamped. */
    method Append(marshal: nat -> Option<Blob>, size: nat -> int, deleteFails: nat -> bool, reserves: bool, commits: bool)
      returns (r: Option<nat>)
      requires Valid()
      modifies this
      ensures Valid()
      ensures !reserves ==> meta == old(meta)
      ensures reserves ==> Counter() == Following(old(Counter()))
      ensures old(dropped) <= dropped <= old(dropped) + |old(Pending()).Keys|
      ensures r.Some? ==> r.value == Counter() && marshal(r.value).Some?
                          && Pending() == Evict(old(Pending()), dropped - old(dropped))[r.value := marshal(r.value).value]
      ensures r.None? ==> events == old(events)
      ensures if reserves && marshal(Counter()).Some?
              then Evicts(size, deleteFails, commits, |marshal(Counter()).value|, old(Pending()), dropped - old(dropped), r.Some?)
              else r.None? && dropped == old(dropped)
    {
      hide Valid, Pending, Evicts, Evict, Following;
      var n := NextSeq(reserves);
      if n == None {
        return None;
      }
      var blob := marshal(n.value);
      if blob == None {
        return None;
      }
      var ok := Store(n.value, blob.value, size, deleteFails, commits);
      return if ok then n else None;
    }

    /** Up to `n` pending records, oldest first, without removing them; none when
        the read transaction errs. */
    method Peek(n: int, readable: bool) returns (batch: Option<Batch>)
      requires Valid()
      ensures batch.Some? <==> readable
      ensures batch.Some? ==>
        IsBatch(events, batch.value) && Numbers(batch.value.keys) == Oldest(Pending().Keys, if n < 0 then 0 else n)
    {
      if !readable {
        return None;
      }
      var b := Collect(events, n);
      return Some(b);
    }

    /** Removes records the publisher confirmed; keys no longer present are ignored. */
    method Ack(keys: seq<seq<Byte>>, commits: bool) returns (ok: bool)
      requires Valid() && forall i :: 0 <= i < |keys| ==> |keys[i]| == 8
      modifies this`events
      ensures Valid() && ok == commits
      ensures Pending() == if ok then old(Pending()) - Elements(Numbers(keys)) else old(Pending())
    {
      hide Numbered, Get, Elements, Numbers;
      var b := events;
      NumbersOfPrefix(keys, 0);
      for i := 0 to |keys|
        invariant AllKeysEightBytes(b)
        invariant events == old(events)
        invariant Numbered(b) == old(Pending()) - Elements(Numbers(keys[..i]))
      {
        NumberedDelete(b, keys[i]);
        NumbersOfPrefix(keys, i);
        b := b - {keys[i]};
      }
      assert keys[..|keys|] == keys;
      if commits {
        events := b;
      }
      return commits;
    }
  }
}
