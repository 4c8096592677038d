/** Recovering a client's banner and algorithm lists from the start of an SSH
    connection (`parseHello` in node/internal/protocols/sshd/kexsniff.go); the
    layout is that of sections 4.2, 6 and 7.1 of RFC 4253 and section 5 of
    RFC 4251. */
module Kex {
  import opened Basics
  import opened BigEndian
  import opened Text

  type Bytes = seq<Byte>

  const COMMA: Byte := 44
  const CRLF: Bytes := [13, 10]
  const SSH_PREFIX: Bytes := [83, 83, 72, 45]
  const MSG_KEXINIT: Byte := 20
  const U32: nat := 0x1_0000_0000

  datatype Hello = Hello(
    banner: Bytes, kex: seq<Bytes>, hostKeyAlgs: seq<Bytes>, ciphers: seq<Bytes>, macs: seq<Bytes>, compression: seq<Bytes>,
    parsed: bool)

  function Unparsed(banner: Bytes): Hello {
    Hello(banner, [], [], [], [], [], false)
  }

  // ----- What parsing means.

  /** `bytes.Index(s, "\r\n")`. */
  function FindCrlf(s: Bytes): (i: Option<nat>)
    ensures i.Some? ==> i.value + 2 <= |s| && s[i.value..i.value + 2] == CRLF
  {
    if |s| < 2 then None
    else if s[0] == 13 && s[1] == 10 then Some(0)
    else
      var i := FindCrlf(s[1..]);
      if i.Some? then
        assert s[i.value + 1..i.value + 3] == s[1..][i.value..i.value + 2];
        Some(i.value + 1)
      else None
  }

  datatype Banner = NoBanner | Found(line: Bytes, rest: Bytes)

  /** The first line that begins with `SSH-`, after any comment lines. */
  function FindBanner(s: Bytes): Banner
    decreases |s|
  {
    var i := FindCrlf(s);
    if i.None? then NoBanner
    else
      var line, rest := s[..i.value], s[i.value + 2..];
      if SSH_PREFIX <= line then Found(line, rest)
      else if rest == [] then NoBanner
      else FindBanner(rest)
  }

  /** The payload of the packet at the front, when all of it is there. */
  function PacketPayload(rest: Bytes): Option<Bytes> {
    if |rest| < 6 then None
    else
      var packetLen := Get(rest[..4]);
      var payloadLen := packetLen - rest[4] - 1;
      if packetLen < 2 || packetLen > |rest| - 4 || payloadLen <= 0 || 5 + payloadLen > |rest| then None
      else Some(rest[5..5 + payloadLen])
  }

  /** A name-list's contents. */
  function SplitList(raw: Bytes): seq<Bytes> {
    if raw == [] then [] else Split(raw, COMMA)
  }

  /** The next `k` name-lists. */
  function ReadLists(p: Bytes, k: nat): (lists: Option<seq<seq<Bytes>>>)
    ensures lists.Some? ==> |lists.value| == k
  {
    if k == 0 then Some([])
    else if |p| < 4 then None
    else
      var n := Get(p[..4]);
      if n > |p| - 4 then None
      else
        var rest := ReadLists(p[4 + n..], k - 1);
        if rest.None? then None else Some([SplitList(p[4..4 + n])] + rest.value)
  }

  function ReadPayload(banner: Bytes, payload: Bytes): Hello {
    if |payload| < 17 || payload[0] != MSG_KEXINIT then Unparsed(banner)
    else
      var lists := ReadLists(payload[17..], 10);
      if lists.None? then Unparsed(banner)
      else
        var l := lists.value;
        Hello(banner, l[0], l[1], l[2], l[4], l[6], true)
  }

  function ParsedHello(buf: Bytes): Hello {
    var b := FindBanner(buf);
    if b.NoBanner? then Unparsed([])
    else
      var payload := PacketPayload(b.rest);
      if payload.None? then Unparsed(b.line) else ReadPayload(b.line, payload.value)
  }

  // ----- The parser.

  lemma FourBytes(s: Bytes)
    requires |s| == 4
    ensures Get(s) < U32
  {
    Pow256Eight();
    GetBounded(s);
  }

  /** The loop that skips comment lines. */
  method BannerLoop(buf: Bytes) returns (b: Banner)
    ensures b == FindBanner(buf)
  {
    hide FindCrlf;
    var rest := buf;
    while true
      invariant FindBanner(buf) == FindBanner(rest)
      decreases |rest|
    {
      var idx := FindCrlf(rest);
      if idx.None? {
        return NoBanner;
      }
      var line := rest[..idx.value];
      rest := rest[idx.value + 2..];
      if SSH_PREFIX <= line {
        return Found(line, rest);
      }
      if |rest| == 0 {
        return NoBanner;
      }
    }
  }

  /** `parseHello`: no buffer makes it index out of range. */
  method ParseHello(buf: Bytes) returns (h: Hello)
    ensures h == ParsedHello(buf)
  {
    hide FindCrlf, Get, ReadLists, FindBanner;
    var found := BannerLoop(buf);
    if found.NoBanner? {
      return Unparsed([]);
    }
    var rest := found.rest;
    h := Unparsed(found.line);
    if |rest| < 6 {
      return;
    }
    var packetLen := Get(rest[0..4]);
    FourBytes(rest[..4]);
    var padLen := rest[4];
    if packetLen < 2 || packetLen > |rest| - 4 {
      return;
    }
    var payloadLen := packetLen - padLen - 1;
    if payloadLen <= 0 || 5 + payloadLen > |rest| {
      return;
    }
    var payload := rest[5..5 + payloadLen];
    if |payload| < 17 || payload[0] != MSG_KEXINIT {
      return;
    }
    var lists := CollectLists(payload[17..]);
    if lists.None? {
      return;
    }
    var l := lists.value;
    h := Hello(h.banner, l[0], l[1], l[2], l[4], l[6], true);
  }

  /** The lists read so far, before those still to read. */
  function After(got: seq<seq<Bytes>>, rest: Option<seq<seq<Bytes>>>): Option<seq<seq<Bytes>>> {
    if rest.None? then None else Some(got + rest.value)
  }

  lemma AfterNone(rest: Option<seq<seq<Bytes>>>)
    ensures After([], rest) == rest
  {
    assert rest.Some? ==> [] + rest.value == rest.value;
  }

  lemma AfterOneMore(got: seq<seq<Bytes>>, items: seq<Bytes>, rest: Option<seq<seq<Bytes>>>)
    ensures After(got, After([items], rest)) == After(got + [items], rest)
  {
    assert rest.Some? ==> got + ([items] + rest.value) == got + [items] + rest.value;
  }

  lemma ReadNextList(p: Bytes, k: nat)
    ensures k == 0 ==> ReadLists(p, k) == Some([])
    ensures k > 0 && (|p| < 4 || Get(p[..4]) > |p| - 4) ==> ReadLists(p, k).None?
    ensures k > 0 && |p| >= 4 && Get(p[..4]) <= |p| - 4 ==>
      var n := Get(p[..4]); ReadLists(p, k) == After([SplitList(p[4..4 + n])], ReadLists(p[4 + n..], k - 1))
  {
    hide SplitList, Get;
  }

  /** The loop over the ten name-lists. Lengths are `uint32`, and so is the sum
      `4+n` that ends the slice. */
  method CollectLists(payload: Bytes) returns (lists: Option<seq<seq<Bytes>>>)
    requires |payload| < U32
    ensures lists == ReadLists(payload, 10)
  {
    hide ReadLists, SplitList, Get;
    var p := payload;
    var got: seq<seq<Bytes>> := [];
    AfterNone(ReadLists(payload, 10));
    for i := 0 to 10
      invariant |got| == i && |p| <= |payload|
      invariant ReadLists(payload, 10) == After(got, ReadLists(p, 10 - i))
    {
      ReadNextList(p, 10 - i);
      if |p| < 4 {
        return None;
      }
      var n := Get(p[..4]);
      if n > |p| - 4 {
        return None;
      }
      var end := (4 + n) % U32;
      assert end == 4 + n;
      var items := SplitList(p[4..end]);
      AfterOneMore(got, items, ReadLists(p[4 + n..], 10 - i - 1));
      p := p[end..];
      got := got + [items];
    }
    ReadNextList(p, 0);
    assert got + [] == got;
    return Some(got);
  }

  // ----- More bytes change nothing once the hello has been parsed.

  lemma {:induction false} FindCrlfExtended(s: Bytes, more: Bytes)
    requires FindCrlf(s).Some?
    ensures FindCrlf(s + more) == FindCrlf(s)
  {
    if !(s[0] == 13 && s[1] == 10) {
      FindCrlfExtended(s[1..], more);
      assert (s + more)[1..] == s[1..] + more;
    }
  }

  lemma {:induction false} FindBannerExtended(s: Bytes, more: Bytes)
    requires FindBanner(s).Found?
    ensures FindBanner(s + more) == Found(FindBanner(s).line, FindBanner(s).rest + more)
    decreases |s|
  {
    hide FindCrlf, FindBanner;
    FindBannerNext(s);
    FindCrlfExtended(s, more);
    FindBannerNext(s + more);
    var i := FindCrlf(s).value;
    FrontExtended(s, more, i);
    if !(SSH_PREFIX <= s[..i]) {
      FindBannerExtended(s[i + 2..], more);
    }
  }

  lemma FrontExtended(s: Bytes, more: Bytes, i: nat)
    requires i + 2 <= |s|
    ensures (s + more)[..i] == s[..i] && (s + more)[i + 2..] == s[i + 2..] + more
  {
  }

  lemma FindBannerNext(s: Bytes)
    ensures var i := FindCrlf(s);
            FindBanner(s) ==
              if i.None? then NoBanner
              else if SSH_PREFIX <= s[..i.value] then Found(s[..i.value], s[i.value + 2..])
              else if s[i.value + 2..] == [] then NoBanner
              else FindBanner(s[i.value + 2..])
  {
    hide FindCrlf;
  }

  lemma PacketPayloadExtended(rest: Bytes, more: Bytes)
    requires PacketPayload(rest).Some?
    ensures PacketPayload(rest + more) == PacketPayload(rest)
  {
    hide Get;
    assert (rest + more)[..4] == rest[..4];
    var payloadLen := Get(rest[..4]) - rest[4] - 1;
    assert (rest + more)[5..5 + payloadLen] == rest[5..5 + payloadLen];
  }

  /** Stability: a hello once parsed parses to the same result however many bytes follow. */
  lemma ParsedIsFinal(buf: Bytes, more: Bytes)
    requires ParsedHello(buf).parsed
    ensures ParsedHello(buf + more) == ParsedHello(buf)
  {
    hide FindBanner, PacketPayload, ReadPayload;
    UnparsedFacts(buf);
    FindBannerExtended(buf, more);
    PacketPayloadExtended(FindBanner(buf).rest, more);
  }

  lemma UnparsedFacts(buf: Bytes)
    requires ParsedHello(buf).parsed
    ensures FindBanner(buf).Found? && PacketPayload(FindBanner(buf).rest).Some?
  {
  }

  // ----- Encoding, and back.

  /** A line that can be sent: it has no CR LF of its own. */
  predicate OneLine(line: Bytes) {
    forall i :: 0 <= i < |line| - 1 ==> !(line[i] == 13 && line[i + 1] == 10)
  }

  lemma {:induction false} FindCrlfAfter(line: Bytes, rest: Bytes)
    requires OneLine(line)
    ensures FindCrlf(line + CRLF + rest) == Some(|line|)
  {
    var s := line + CRLF + rest;
    if line != [] {
      assert s[0] == line[0] && s[1] == if |line| > 1 then line[1] else 13;
      assert !(s[0] == 13 && s[1] == 10);
      assert OneLine(line[1..]) by { assert forall i :: 0 <= i < |line| - 1 ==> line[1..][i] == line[i + 1]; }
      FindCrlfAfter(line[1..], rest);
      assert s[1..] == line[1..] + CRLF + rest;
    }
  }

  function Lines(comments: seq<Bytes>): Bytes {
    if comments == [] then [] else comments[0] + CRLF + Lines(comments[1..])
  }

  lemma {:induction false} FindBannerAfter(comments: seq<Bytes>, banner: Bytes, rest: Bytes)
    requires forall i :: 0 <= i < |comments| ==> OneLine(comments[i]) && !(SSH_PREFIX <= comments[i])
    requires OneLine(banner) && SSH_PREFIX <= banner
    ensures FindBanner(Lines(comments) + banner + CRLF + rest) == Found(banner, rest)
  {
    hide FindCrlf, OneLine;
    var s := Lines(comments) + banner + CRLF + rest;
    if comments == [] {
      assert s == banner + CRLF + rest;
      FindCrlfAfter(banner, rest);
      assert s[..|banner|] == banner && s[|banner| + 2..] == rest;
    } else {
      var c := comments[0];
      var others := Lines(comments[1..]) + banner + CRLF + rest;
      assert s == c + CRLF + others;
      FindCrlfAfter(c, others);
      assert s[..|c|] == c && s[|c| + 2..] == others;
      FindBannerAfter(comments[1..], banner, rest);
    }
  }

  function EncodeList(names: seq<Bytes>): Bytes {
    var raw := Join(names, COMMA);
    Put(|raw|, 4) + raw
  }

  function EncodeLists(lists: seq<seq<Bytes>>): Bytes {
    if lists == [] then [] else EncodeList(lists[0]) + EncodeLists(lists[1..])
  }

  /** A list that survives the comma-separated form: no commas inside names, and
      not the one list that looks like the empty list. */
  predicate Encodable(names: seq<Bytes>) {
    names != [[]] && forall i :: 0 <= i < |names| ==> COMMA !in names[i]
  }

  /** Splitting a joined name-list gives it back exactly when it is encodable. */
  lemma ListRoundTripIff(names: seq<Bytes>)
    ensures SplitList(Join(names, COMMA)) == names <==> Encodable(names)
  {
    var raw := Join(names, COMMA);
    if Encodable(names) && names != [] {
      SplitJoin(names, COMMA);
      assert |names| >= 2 ==> |raw| >= 1;
    }
    if SplitList(raw) == names && raw != [] {
      JoinSplit(raw, COMMA);
      assert names == [[]] ==> raw == [];
    }
  }

  lemma {:induction false} ReadEncodedLists(lists: seq<seq<Bytes>>, more: Bytes)
    requires forall i :: 0 <= i < |lists| ==> Encodable(lists[i]) && |Join(lists[i], COMMA)| < U32
    ensures ReadLists(EncodeLists(lists) + more, |lists|) == Some(lists)
  {
    hide Get, Put, Split, Join, SplitList;
    if lists != [] {
      var raw := Join(lists[0], COMMA);
      var p := EncodeLists(lists) + more;
      var others := EncodeLists(lists[1..]) + more;
      Pow256Eight();
      GetPut(|raw|, 4);
      PutLength(|raw|);
      assert p == Put(|raw|, 4) + raw + others;
      assert p[..4] == Put(|raw|, 4);
      assert p[4..4 + |raw|] == raw && p[4 + |raw|..] == others;
      ListRoundTripIff(lists[0]);
      ReadEncodedLists(lists[1..], more);
      assert [lists[0]] + lists[1..] == lists;
    }
  }

  lemma PutLength(n: nat)
    ensures |Put(n, 4)| == 4
  {
  }

  /** A KEXINIT packet: length, padding length, payload, padding. */
  function EncodePacket(payload: Bytes, padding: Bytes): Bytes
    requires |padding| < 256
  {
    Put(1 + |payload| + |padding|, 4) + [|padding|] + payload + padding
  }

  function EncodeHello(comments: seq<Bytes>, banner: Bytes, payload: Bytes, padding: Bytes): Bytes
    requires |padding| < 256
  {
    Lines(comments) + banner + CRLF + EncodePacket(payload, padding)
  }

  /** Message type, cookie, ten name-lists, and the trailing fields. */
  function KexPayload(cookie: Bytes, lists: seq<seq<Bytes>>, trailer: Bytes): Bytes {
    [MSG_KEXINIT] + cookie + EncodeLists(lists) + trailer
  }

  lemma PayloadOfPacket(payload: Bytes, padding: Bytes, more: Bytes)
    requires |padding| < 256 && payload != [] && 1 + |payload| + |padding| < U32
    ensures PacketPayload(EncodePacket(payload, padding) + more) == Some(payload)
  {
    hide Get, Put;
    var len := 1 + |payload| + |padding|;
    var rest := EncodePacket(payload, padding) + more;
    Pow256Eight();
    GetPut(len, 4);
    PutLength(len);
    assert rest == Put(len, 4) + [|padding|] + payload + padding + more;
    assert rest[..4] == Put(len, 4) && rest[4] == |padding|;
    assert rest[5..5 + |payload|] == payload;
  }

  /** Parsing undoes encoding: from any comment lines, banner, cookie, padding and
      ten encodable name-lists, and whatever follows the packet, the banner and
      lists 0, 1, 2, 4 and 6 come back. */
  lemma ParseEncoded(comments: seq<Bytes>, banner: Bytes, cookie: Bytes, lists: seq<seq<Bytes>>, trailer: Bytes, padding: Bytes, more: Bytes)
    requires forall i :: 0 <= i < |comments| ==> OneLine(comments[i]) && !(SSH_PREFIX <= comments[i])
    requires OneLine(banner) && SSH_PREFIX <= banner && |cookie| == 16 && |lists| == 10 && |padding| < 256
    requires forall i :: 0 <= i < |lists| ==> Encodable(lists[i])
    requires 1 + |KexPayload(cookie, lists, trailer)| + |padding| < U32
    ensures ParsedHello(EncodeHello(comments, banner, KexPayload(cookie, lists, trailer), padding) + more)
         == Hello(banner, lists[0], lists[1], lists[2], lists[4], lists[6], true)
  {
    hide FindBanner, PacketPayload, ReadLists, EncodeLists, Encodable, OneLine, Lines, EncodePacket, Join;
    var payload := KexPayload(cookie, lists, trailer);
    var rest := EncodePacket(payload, padding) + more;
    assert EncodeHello(comments, banner, payload, padding) + more == Lines(comments) + banner + CRLF + rest;
    FindBannerAfter(comments, banner, rest);
    PayloadOfPacket(payload, padding, more);
    assert payload[17..] == EncodeLists(lists) + trailer;
    ListsFit(lists);
    ReadEncodedLists(lists, trailer);
  }

  lemma {:induction false} ListsFit(lists: seq<seq<Bytes>>)
    ensures forall i :: 0 <= i < |lists| ==> |Join(lists[i], COMMA)| <= |EncodeLists(lists)|
  {
    if lists != [] {
      ListsFit(lists[1..]);
      assert forall i :: 1 <= i < |lists| ==> lists[i] == lists[1..][i - 1];
    }
  }

  // ----- Nothing else parses.

  /** These bytes are this line, with CR LF behind it, between what comes before and
      after. */
  ghost predicate Surrounded(s: Bytes, before: Bytes, line: Bytes, rest: Bytes) {
    s == before + line + [13, 10] + rest
  }

  lemma LineFirst(s: Bytes, i: nat)
    requires i + 2 <= |s| && s[i..i + 2] == CRLF
    ensures Surrounded(s, [], s[..i], s[i + 2..])
  {
    assert s == s[..i] + s[i..i + 2] + s[i + 2..];
    assert [] + s[..i] == s[..i];
  }

  lemma LineLater(s: Bytes, line: Bytes, rest: Bytes, before: Bytes, found: Bytes, after: Bytes)
    requires Surrounded(s, [], line, rest) && Surrounded(rest, before, found, after)
    ensures Surrounded(s, line + [13, 10] + before, found, after)
  {
    assert [] + line == line;
    assert line + [13, 10] + (before + found + [13, 10] + after) == (line + [13, 10] + before) + found + [13, 10] + after;
  }

  lemma {:induction false} BannerIsThere(s: Bytes) returns (before: Bytes)
    requires FindBanner(s).Found?
    ensures Surrounded(s, before, FindBanner(s).line, FindBanner(s).rest) && [83, 83, 72, 45] <= FindBanner(s).line
    decreases |s|
  {
    hide FindCrlf, Surrounded;
    var i := FindCrlf(s).value;
    var line, rest := s[..i], s[i + 2..];
    LineFirst(s, i);
    before := [];
    if !(SSH_PREFIX <= line) {
      var b := FindBanner(rest);
      var later := BannerIsThere(rest);
      LineLater(s, line, rest, later, b.line, b.rest);
      before := line + [13, 10] + later;
    }
  }

  /** Whatever parses has a line that starts with `SSH-`, and after it a whole packet
      whose message is number 20, long enough for its cookie. */
  lemma ParsedNeeds(buf: Bytes)
    requires ParsedHello(buf).parsed
    ensures exists before: Bytes, line: Bytes, rest: Bytes ::
      && Surrounded(buf, before, line, rest) && [83, 83, 72, 45] <= line && ParsedHello(buf).banner == line
      && |rest| >= 6 && 4 + Get(rest[..4]) <= |rest| && Get(rest[..4]) - rest[4] - 1 >= 17 && rest[5] == 20
  {
    hide FindBanner, Get, ReadLists, Surrounded;
    UnparsedFacts(buf);
    var before := BannerIsThere(buf);
    var b := FindBanner(buf);
    PacketNeeds(b.line, b.rest);
  }

  lemma PacketNeeds(line: Bytes, rest: Bytes)
    requires PacketPayload(rest).Some? && ReadPayload(line, PacketPayload(rest).value).parsed
    ensures ReadPayload(line, PacketPayload(rest).value).banner == line
    ensures |rest| >= 6 && 4 + Get(rest[..4]) <= |rest| && Get(rest[..4]) - rest[4] - 1 >= 17 && rest[5] == 20
  {
    hide Get, ReadLists;
  }
}
