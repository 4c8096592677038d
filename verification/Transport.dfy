/** The bus client that the spool is drained through, and what a drain may do to
    it (node/internal/transport/nats.go). */
module Transport {
  import opened Basics
  import opened PendingLog
  import opened Spools

  datatype DrainError = ConnectFailed | PeekFailed | PublishFailed | FlushFailed | AckFailed

  datatype RoundResult = More | Finished | Failed(error: DrainError)

  /** The bus client: published messages sit in a write buffer until a flush
      confirms that the server holds them. Every call may fail. */
  class Link {
    var buffer: seq<Blob>
    var bus: seq<Blob>

    method Publish(blob: Blob) returns (ok: bool)
      modifies this`buffer
      ensures buffer == if ok then old(buffer) + [blob] else old(buffer)
    {
      ok := *;
      if ok {
        buffer := buffer + [blob];
      }
    }

    constructor ()
      ensures buffer == [] && bus == []
    {
      buffer, bus := [], [];
    }

    /** The connection breaks or the process stops: what was not yet sent is gone. */
    method Lose()
      modifies this`buffer
      ensures buffer == []
    {
      buffer := [];
    }

    /** The server receives the first `k` messages of the buffer. */
    method Deliver(k: nat)
      requires k <= |buffer|
      modifies this
      ensures bus == old(bus) + old(buffer)[..k] && buffer == old(buffer)[k..]
    {
      bus, buffer := bus + buffer[..k], buffer[k..];
    }

    /** What a flush answers: success only when the buffer is empty and, as `intact`
        says, nothing published for it was lost. */
    method Confirms(intact: bool) returns (ok: bool)
      ensures ok ==> intact && buffer == []
    {
      ok := *;
      ok := ok && intact && buffer == [];
    }
  }

  /** Every record that was pending and no longer is has its blob on the bus. */
  ghost predicate OnBus(before: map<nat, Blob>, now: map<nat, Blob>, bus: seq<Blob>) {
    forall n :: n in before && n !in now ==> before[n] in bus
  }

  /** What two drains removed in turn is on the bus after the second. */
  lemma OnBusTwice(before: map<nat, Blob>, mid: map<nat, Blob>, now: map<nat, Blob>, bus: seq<Blob>, later: seq<Blob>)
    requires OnBus(before, mid, bus) && OnBus(mid, now, later) && bus <= later
    requires forall n :: n in mid ==> n in before && mid[n] == before[n]
    ensures OnBus(before, now, later)
  {
    forall n | n in before && n !in now ensures before[n] in later {
      if n !in mid {
        var i :| 0 <= i < |bus| && bus[i] == before[n];
        assert later[i] == before[n];
      }
    }
  }

  lemma AllFromTwice(
    now: seq<Blob>, mid: seq<Blob>, before: seq<Blob>, pending: map<nat, Blob>, left: map<nat, Blob>)
    requires AllFrom(mid, before, pending) && AllFrom(now, mid, left)
    requires forall n :: n in left ==> n in pending && left[n] == pending[n]
    ensures AllFrom(now, before, pending)
  {
    forall b | b in now ensures b in before || b in pending.Values {
      if b !in mid {
        var n :| n in left && left[n] == b;
        assert pending[n] == b;
      }
    }
  }

  lemma NothingMoved(pending: map<nat, Blob>, bus: seq<Blob>, all: seq<Blob>)
    ensures OnBus(pending, pending, bus) && AllFrom(all, all, pending)
  {
  }

  /** Everything in `now` was there before or is the blob of a pending record. */
  ghost predicate AllFrom(now: seq<Blob>, before: seq<Blob>, pending: map<nat, Blob>) {
    forall b :: b in now ==> b in before || b in pending.Values
  }
}
