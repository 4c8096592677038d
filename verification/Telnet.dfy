/** Stripping Telnet negotiation from a byte stream (`telnetConn.Read` in
    node/internal/protocols/telnet/server.go), per the "TELNET Command
    Structure" section of RFC 854 and RFC 855. */
module Telnet {
  import opened Basics

  const IAC: Byte := 255
  const DONT: Byte := 254
  const WILL: Byte := 251
  const SB: Byte := 250
  const SE: Byte := 240

  predicate IsOptionCommand(b: Byte) {
    WILL <= b <= DONT
  }

  // ----- The filter, as a five-state machine over the stream.

  datatype Phase = Payload | AfterIac | AtOption | InSub | InSubAfterIac

  datatype Filtered = Filtered(phase: Phase, out: seq<Byte>)

  function Step(phase: Phase, b: Byte): Filtered {
    match phase
    case Payload =>
      if b == IAC then Filtered(AfterIac, []) else if b == 0 then Filtered(Payload, []) else Filtered(Payload, [b])
    case AfterIac =>
      if IsOptionCommand(b) then Filtered(AtOption, [])
      else if b == SB then Filtered(InSub, [])
      else if b == IAC then Filtered(Payload, [IAC])
      else Filtered(Payload, [])
    case AtOption => Filtered(Payload, [])
    case InSub => Filtered(if b == IAC then InSubAfterIac else InSub, [])
    case InSubAfterIac => Filtered(if b == SE then Payload else InSub, [])
  }

  function Run(phase: Phase, bytes: seq<Byte>): Filtered {
    if bytes == [] then Filtered(phase, []) else
      var before := Run(phase, bytes[..|bytes| - 1]);
      var last := Step(before.phase, bytes[|bytes| - 1]);
      Filtered(last.phase, before.out + last.out)
  }

  /** What one pass over the whole stream delivers. */
  function Filter(bytes: seq<Byte>): seq<Byte> {
    Run(Payload, bytes).out
  }

  lemma RunSnoc(phase: Phase, bytes: seq<Byte>, b: Byte)
    ensures var before := Run(phase, bytes);
            Run(phase, bytes + [b]) == Filtered(Step(before.phase, b).phase, before.out + Step(before.phase, b).out)
  {
    assert (bytes + [b])[..|bytes|] == bytes;
  }

  lemma {:induction false} RunConcat(phase: Phase, a: seq<Byte>, b: seq<Byte>)
    ensures Run(phase, a + b) == Filtered(Run(Run(phase, a).phase, b).phase, Run(phase, a).out + Run(Run(phase, a).phase, b).out)
    decreases |b|
  {
    hide Run, Step;
    if b == [] {
      assert a + b == a;
      RunNothing(Run(phase, a).phase);
      assert Run(phase, a).out + [] == Run(phase, a).out;
    } else {
      var init, last := b[..|b| - 1], b[|b| - 1];
      RunConcat(phase, a, init);
      assert a + b == (a + init) + [last];
      RunSnoc(phase, a + init, last);
      assert b == init + [last];
      RunSnoc(Run(phase, a).phase, init, last);
      var x, y := Run(phase, a).out, Run(Run(phase, a).phase, init);
      assert x + y.out + Step(y.phase, last).out == x + (y.out + Step(y.phase, last).out);
    }
  }

  lemma RunNothing(phase: Phase)
    ensures Run(phase, []) == Filtered(phase, [])
  {
  }

  // ----- The reader.

  class TelnetConn {
    /** Everything the client sends before the connection fails. */
    const stream: seq<Byte>
    var pos: nat

    constructor (stream: seq<Byte>)
      ensures this.stream == stream && pos == 0
    {
      this.stream, pos := stream, 0;
    }

    method ReadByte() returns (b: Byte, ok: bool)
      requires pos <= |stream|
      modifies this
      ensures ok <==> old(pos) < |stream|
      ensures ok ==> pos == old(pos) + 1 && b == stream[old(pos)]
      ensures !ok ==> pos == old(pos)
    {
      ok := pos < |stream|;
      b := 0;
      if ok {
        b := stream[pos];
        pos := pos + 1;
      }
    }

    /** The stream consumed since `from`. */
    ghost function Since(from: nat): seq<Byte>
      requires from <= pos <= |stream|
      reads this
    {
      stream[from..pos]
    }

    /** Skips a subnegotiation up to its IAC SE. */
    method SkipSub(ghost from: nat) returns (ok: bool)
      requires from <= pos <= |stream| && Run(Payload, Since(from)).phase == InSub
      modifies this
      ensures old(pos) <= pos <= |stream|
      ensures Run(Payload, Since(from)).out == old(Run(Payload, Since(from)).out)
      ensures ok ==> Run(Payload, Since(from)).phase == Payload
      ensures !ok ==> pos == |stream|
    {
      hide Run;
      ghost var out := Run(Payload, Since(from)).out;
      while true
        invariant old(pos) <= pos <= |stream| && Run(Payload, Since(from)) == Filtered(InSub, out)
        decreases |stream| - pos
      {
        var c, got := ReadByte();
        if !got {
          return false;
        }
        Consumed(stream, from, pos);
        if c == IAC {
          var next, gotNext := ReadByte();
          if !gotNext {
            return false;
          }
          Consumed(stream, from, pos);
          if next == SE {
            return true;
          }
        }
      }
    }

    /** The rest of a command after its IAC. An escaped IAC is left to the caller. */
    method SkipCommand(ghost from: nat) returns (escaped: bool, complete: bool)
      requires from <= pos <= |stream| && Run(Payload, Since(from)).phase == AfterIac
      modifies this
      ensures old(pos) <= pos <= |stream|
      ensures complete ==>
        Run(Payload, Since(from)) == Filtered(Payload, old(Run(Payload, Since(from)).out) + if escaped then [IAC] else [])
      ensures !complete ==> pos == |stream| && Run(Payload, Since(from)).out == old(Run(Payload, Since(from)).out)
    {
      hide Run;
      escaped := false;
      var cmd, gotCmd := ReadByte();
      if !gotCmd {
        return false, false;
      }
      Consumed(stream, from, pos);
      if IsOptionCommand(cmd) {
        var _, gotOption := ReadByte();
        if !gotOption {
          return false, false;
        }
        Consumed(stream, from, pos);
      } else if cmd == SB {
        var ended := SkipSub(from);
        return false, ended;
      } else if cmd == IAC {
        escaped := true;
      }
      return escaped, true;
    }

    /** Fills a caller's buffer with payload bytes. Whether the buffered reader
        is drained after a byte is not known, so both answers are allowed. */
    method Read(p: array<Byte>) returns (n: nat, failed: bool)
      requires pos <= |stream|
      modifies this, p
      ensures old(pos) <= pos <= |stream| && n <= p.Length
      ensures Run(Payload, Since(old(pos))).out == p[..n]
      ensures !failed ==> Run(Payload, Since(old(pos))).phase == Payload
      ensures !failed && p.Length > 0 ==> n > 0 && pos > old(pos)
      ensures failed ==> pos == |stream|
    {
      hide Run;
      n := 0;
      ghost var from := pos;
      Started(stream, from);
      while n < p.Length
        invariant from <= pos <= |stream| && n <= p.Length
        invariant Run(Payload, Since(from)) == Filtered(Payload, p[..n])
        invariant n > 0 ==> pos > from
        decreases |stream| - pos
      {
        var b, got := ReadByte();
        if !got {
          return n, n == 0;
        }
        Consumed(stream, from, pos);
        if b == IAC {
          var escaped, complete := SkipCommand(from);
          if !complete {
            return n, true;
          }
          if escaped {
            p[n] := IAC;
            n := n + 1;
          }
          continue;
        }
        if b == 0 {
          continue;
        }
        p[n] := b;
        n := n + 1;
        var drained := *;
        if drained {
          return n, false;
        }
      }
      return n, false;
    }

    /** Reads until the connection fails, with buffers of any non-zero sizes. The
        bytes handed out, however they are cut up, are one pass of the filter. */
    method ReadAll() returns (all: seq<Byte>)
      requires pos == 0
      modifies this
      ensures all == Filter(stream)
    {
      hide Run;
      all := [];
      Started(stream, 0);
      var failed := false;
      while !failed
        invariant pos <= |stream| && Run(Payload, stream[..pos]).out == all
        invariant if failed then pos == |stream| else Run(Payload, stream[..pos]).phase == Payload
        decreases |stream| - pos, !failed
      {
        var size: nat :| size > 0;
        var p := new Byte[size];
        ghost var from := pos;
        var n;
        n, failed := Read(p);
        assert stream[..pos] == stream[..from] + stream[from..pos];
        RunConcat(Payload, stream[..from], stream[from..pos]);
        all := all + p[..n];
      }
      assert stream[..pos] == stream;
    }
  }

  lemma Started(stream: seq<Byte>, from: nat)
    requires from <= |stream|
    ensures Run(Payload, stream[from..from]) == Filtered(Payload, [])
  {
  }

  lemma Consumed(stream: seq<Byte>, from: nat, pos: nat)
    requires from < pos <= |stream|
    ensures var before := Run(Payload, stream[from..pos - 1]);
            var last := Step(before.phase, stream[pos - 1]);
            Run(Payload, stream[from..pos]) == Filtered(last.phase, before.out + last.out)
  {
    assert stream[from..pos] == stream[from..pos - 1] + [stream[pos - 1]];
    RunSnoc(Payload, stream[from..pos - 1], stream[pos - 1]);
  }

  // ----- What a client sends.

  /** A payload byte, or a complete negotiation sequence between payload bytes. */
  datatype Piece =
    | Data(b: Byte)
    | Option(command: Byte, option: Byte)
    | Command(command: Byte)
    | Subnegotiation(body: seq<Byte>)

  predicate WellFormed(x: Piece) {
    match x
    case Option(c, _) => IsOptionCommand(c)
    case Command(c) => !IsOptionCommand(c) && c != SB && c != IAC
    case _ => true
  }

  function Doubled(bytes: seq<Byte>): seq<Byte> {
    if bytes == [] then [] else Doubled(bytes[..|bytes| - 1]) + EncodeByte(bytes[|bytes| - 1])
  }

  /** 0xFF is sent twice. */
  function EncodeByte(b: Byte): seq<Byte> {
    if b == IAC then [IAC, IAC] else [b]
  }

  function Encode(x: Piece): seq<Byte> {
    match x
    case Data(b) => EncodeByte(b)
    case Option(c, o) => [IAC, c, o]
    case Command(c) => [IAC, c]
    case Subnegotiation(body) => [IAC, SB] + Doubled(body) + [IAC, SE]
  }

  function EncodeAll(xs: seq<Piece>): seq<Byte> {
    if xs == [] then [] else EncodeAll(xs[..|xs| - 1]) + Encode(xs[|xs| - 1])
  }

  function PayloadOf(xs: seq<Piece>): seq<Byte> {
    if xs == [] then [] else PayloadOf(xs[..|xs| - 1]) + if xs[|xs| - 1].Data? then [xs[|xs| - 1].b] else []
  }

  function WithoutNul(bytes: seq<Byte>): seq<Byte> {
    if bytes == [] then []
    else WithoutNul(bytes[..|bytes| - 1]) + if bytes[|bytes| - 1] == 0 then [] else [bytes[|bytes| - 1]]
  }

  lemma RunTwo(phase: Phase, a: Byte, b: Byte)
    ensures var x := Step(phase, a);
            Run(phase, [a, b]) == Filtered(Step(x.phase, b).phase, x.out + Step(x.phase, b).out)
  {
    RunOne(phase, a);
    RunSnoc(phase, [a], b);
    assert [a] + [b] == [a, b];
  }

  lemma RunOne(phase: Phase, a: Byte)
    ensures Run(phase, [a]) == Step(phase, a)
  {
    RunSnoc(phase, [], a);
    assert [] + [a] == [a];
    assert [] + Step(phase, a).out == Step(phase, a).out;
  }

  lemma {:induction false} RunDoubled(body: seq<Byte>)
    ensures Run(InSub, Doubled(body)) == Filtered(InSub, [])
  {
    if body != [] {
      var init, b := body[..|body| - 1], body[|body| - 1];
      RunDoubled(init);
      RunConcat(InSub, Doubled(init), EncodeByte(b));
      RunOne(InSub, b);
      RunTwo(InSub, IAC, IAC);
    }
  }

  lemma RunPiece(x: Piece)
    requires WellFormed(x)
    ensures Run(Payload, Encode(x)) == Filtered(Payload, if x.Data? && x.b != 0 then [x.b] else [])
  {
    hide Run;
    match x
    case Data(b) =>
      RunOne(Payload, b);
      RunTwo(Payload, IAC, IAC);
    case Option(c, o) =>
      assert [IAC, c, o] == [IAC, c] + [o];
      RunTwo(Payload, IAC, c);
      RunSnoc(Payload, [IAC, c], o);
    case Command(c) =>
      RunTwo(Payload, IAC, c);
    case Subnegotiation(body) =>
      RunTwo(Payload, IAC, SB);
      RunDoubled(body);
      RunTwo(InSub, IAC, SE);
      RunConcat(Payload, [IAC, SB], Doubled(body));
      RunConcat(Payload, [IAC, SB] + Doubled(body), [IAC, SE]);
  }

  /** Escaped payload with complete negotiation sequences between its bytes
      filters back to the payload, less its NULs. */
  lemma {:induction false} FilterEncoded(xs: seq<Piece>)
    requires forall i :: 0 <= i < |xs| ==> WellFormed(xs[i])
    ensures Run(Payload, EncodeAll(xs)) == Filtered(Payload, WithoutNul(PayloadOf(xs)))
  {
    hide Run;
    if xs == [] {
      Started(EncodeAll(xs), 0);
      assert EncodeAll(xs)[0..0] == EncodeAll(xs);
    } else {
      var init, x := xs[..|xs| - 1], xs[|xs| - 1];
      FilterEncoded(init);
      RunPiece(x);
      RunConcat(Payload, EncodeAll(init), Encode(x));
      if x.Data? {
        WithoutNulSnoc(PayloadOf(init), x.b);
      } else {
        assert PayloadOf(xs) == PayloadOf(init);
      }
    }
  }

  lemma WithoutNulSnoc(bytes: seq<Byte>, b: Byte)
    ensures WithoutNul(bytes + [b]) == WithoutNul(bytes) + if b == 0 then [] else [b]
  {
    assert (bytes + [b])[..|bytes|] == bytes;
  }

  lemma {:induction false} WithoutNulIff(bytes: seq<Byte>)
    ensures |WithoutNul(bytes)| <= |bytes| && (WithoutNul(bytes) == bytes <==> 0 !in bytes)
  {
    if bytes != [] {
      var init, b := bytes[..|bytes| - 1], bytes[|bytes| - 1];
      WithoutNulIff(init);
      assert bytes == init + [b];
      if WithoutNul(bytes) == bytes {
        assert WithoutNul(init) == init;
      }
    }
  }

  /** So the payload survives exactly when it holds no NUL. */
  lemma PayloadSurvivesIff(xs: seq<Piece>)
    requires forall i :: 0 <= i < |xs| ==> WellFormed(xs[i])
    ensures Filter(EncodeAll(xs)) == PayloadOf(xs) <==> 0 !in PayloadOf(xs)
  {
    FilterEncoded(xs);
    WithoutNulIff(PayloadOf(xs));
  }

  // ----- The bytes themselves.

  /** How pieces are written, in numbers: 255 announces a command; 251 to 254 take one
      byte more; 250 opens a stretch that 255 240 closes; 255 is a payload byte; every
      other command stands alone. */
  lemma EncodingIs(b: Byte, o: Byte, body: seq<Byte>)
    ensures 251 <= b <= 254 ==> WellFormed(Option(b, o)) && Encode(Option(b, o)) == [255, b, o]
    ensures b < 250 ==> WellFormed(Command(b)) && Encode(Command(b)) == [255, b]
    ensures b < 255 ==> Encode(Data(b)) == [b]
    ensures Encode(Data(255)) == [255, 255]
    ensures 255 !in body ==> Encode(Subnegotiation(body)) == [255, 250] + body + [255, 240]
  {
    if 255 !in body {
      DoubledPlain(body);
    }
  }

  lemma {:induction false} DoubledPlain(body: seq<Byte>)
    requires 255 !in body
    ensures Doubled(body) == body
  {
    if body != [] {
      DoubledPlain(body[..|body| - 1]);
      assert body == body[..|body| - 1] + [body[|body| - 1]];
    }
  }
}
