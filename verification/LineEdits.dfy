/** What lines come out of the interactive editor: keystrokes as a user means them,
    whatever reads they are cut into (`readLine` in node/internal/shell/shell.go). */
module LineEdits {
  import opened Basics
  import opened LineEditor

  /** A keystroke that does not end the line. */
  datatype Edit =
    | Type(c: Byte)
    | Rubout(b: Byte)
    | EraseLine
    | Interrupt
    | Up
    | Down
    | OtherSequence(c: Byte)
    | EndOfText
    | Control(b: Byte)

  /** The bytes a terminal sends for it. */
  function KeyBytes(e: Edit): seq<Byte> {
    match e
    case Type(c) => [c]
    case Rubout(b) => [b]
    case EraseLine => [0x15]
    case Interrupt => [3]
    case Up => [0x1B, '[' as int, 'A' as int]
    case Down => [0x1B, '[' as int, 'B' as int]
    case OtherSequence(c) => [0x1B, '[' as int, c]
    case EndOfText => [4]
    case Control(b) => [b]
  }

  predicate IsKey(e: Edit) {
    match e
    case Type(c) => c >= 0x20 && c != 0x7F
    case Rubout(b) => b == 0x7F || b == 8
    case OtherSequence(c) => c != 'A' as int && c != 'B' as int
    case Control(b) => b < 0x20 && b !in [3, 4, 8, 10, 13, 0x15, 0x1B]
    case _ => true
  }

  function BytesOf(es: seq<Edit>): seq<Byte> {
    if es == [] then [] else KeyBytes(es[0]) + BytesOf(es[1..])
  }

  /** What the key does to the line. */
  function Applied(ed: Editor, history: seq<string>, e: Edit): (r: Editor)
    requires ed.histPos <= |history|
    ensures r.histPos <= |history|
  {
    match e
    case Type(c) => ed.(buf := ed.buf + [c as char])
    case Rubout(_) => if ed.buf == "" then ed else ed.(buf := ed.buf[..|ed.buf| - 1])
    case EraseLine => ed.(buf := "")
    case Interrupt => ed.(buf := "")
    case Up => if ed.histPos == 0 then ed else Editor(history[ed.histPos - 1], ed.histPos - 1)
    case Down => if ed.histPos + 1 < |history| then Editor(history[ed.histPos + 1], ed.histPos + 1) else Editor("", |history|)
    case _ => ed
  }

  function AppliedAll(ed: Editor, history: seq<string>, es: seq<Edit>): (r: Editor)
    requires ed.histPos <= |history|
    ensures r.histPos <= |history|
    decreases |es|
  {
    if es == [] then ed else AppliedAll(Applied(ed, history, es[0]), history, es[1..])
  }

  /** Keys, none of which ends the session: ^D does so on an empty line. */
  predicate Quiet(ed: Editor, history: seq<string>, es: seq<Edit>)
    requires ed.histPos <= |history|
    decreases |es|
  {
    es == [] || (IsKey(es[0]) && (es[0].EndOfText? ==> ed.buf != "") && Quiet(Applied(ed, history, es[0]), history, es[1..]))
  }

  // ----- One key, one read.

  /** A key at the front of what is left of a read. */
  lemma PressIsApplied(ed: Editor, history: seq<string>, prompt: string, e: Edit, before: seq<Byte>, after: seq<Byte>)
    requires ed.histPos <= |history| && IsKey(e) && (e.EndOfText? ==> ed.buf != "")
    ensures var k := Press(ed, history, prompt, before + KeyBytes(e) + after, |before|);
            k.editor == Applied(ed, history, e) && k.taken == |KeyBytes(e)| && k.ending == Typing
  {
    hide Erases;
    var chunk := before + KeyBytes(e) + after;
    assert forall i :: 0 <= i < |KeyBytes(e)| ==> chunk[|before| + i] == KeyBytes(e)[i];
  }

  /** Up to the end of the keys, a read does what its keys do. */
  lemma {:induction false} ReadApplies(
    ed: Editor, history: seq<string>, prompt: string, before: seq<Byte>, es: seq<Edit>, after: seq<Byte>)
    requires ed.histPos <= |history| && Quiet(ed, history, es)
    ensures var chunk := before + BytesOf(es) + after;
            var r, rest := EditChunk(ed, history, prompt, chunk, |before|),
                           EditChunk(AppliedAll(ed, history, es), history, prompt, chunk, |before + BytesOf(es)|);
            r.editor == rest.editor && r.ending == rest.ending
    decreases |es|
  {
    hide Press, EditChunk, Applied, KeyBytes, IsKey;
    if es == [] {
      assert before + [] == before;
    } else {
      var key, more := KeyBytes(es[0]), BytesOf(es[1..]);
      var chunk := before + BytesOf(es) + after;
      KeyFirst(before, key, more, after);
      PressIsApplied(ed, history, prompt, es[0], before, more + after);
      EditNext(ed, history, prompt, chunk, |before|);
      KeyNotEmpty(es[0]);
      ReadApplies(Applied(ed, history, es[0]), history, prompt, before + key, es[1..], after);
    }
  }

  lemma KeyFirst(before: seq<Byte>, key: seq<Byte>, more: seq<Byte>, after: seq<Byte>)
    ensures before + (key + more) + after == before + key + (more + after) == (before + key) + more + after
    ensures before + (key + more) == before + key + more
    ensures |before + key| == |before| + |key|
  {
  }

  lemma KeyNotEmpty(e: Edit)
    ensures |KeyBytes(e)| > 0
  {
  }

  /** A read of keys only. */
  lemma ReadOfKeys(ed: Editor, history: seq<string>, prompt: string, es: seq<Edit>)
    requires ed.histPos <= |history| && Quiet(ed, history, es)
    ensures var r := EditChunk(ed, history, prompt, BytesOf(es), 0);
            r.editor == AppliedAll(ed, history, es) && r.ending == Typing
  {
    hide Press, EditChunk, Quiet, AppliedAll;
    ReadApplies(ed, history, prompt, [], es, []);
    assert [] + BytesOf(es) + [] == BytesOf(es) == [] + BytesOf(es);
    EditNext(AppliedAll(ed, history, es), history, prompt, BytesOf(es), |BytesOf(es)|);
  }

  /** A read of keys and then a byte that ends the line or the session; what comes
      after it in the read is dropped. */
  lemma ReadToEnd(ed: Editor, history: seq<string>, prompt: string, es: seq<Edit>, end: Byte, dropped: seq<Byte>)
    requires ed.histPos <= |history| && Quiet(ed, history, es)
    requires end == 13 || end == 10 || (end == 4 && AppliedAll(ed, history, es).buf == "")
    ensures var r := EditChunk(ed, history, prompt, BytesOf(es) + [end] + dropped, 0);
            r.editor == AppliedAll(ed, history, es) && r.ending == if end == 4 then LoggedOut else LineDone
  {
    hide EditChunk, Quiet, AppliedAll;
    var chunk := BytesOf(es) + [end] + dropped;
    assert [] + BytesOf(es) + ([end] + dropped) == chunk && [] + BytesOf(es) == BytesOf(es);
    ReadApplies(ed, history, prompt, [], es, [end] + dropped);
    assert chunk[|BytesOf(es)|] == end;
    EditNext(AppliedAll(ed, history, es), history, prompt, chunk, |BytesOf(es)|);
  }

  // ----- Any number of reads.

  /** The reads carry these keys, each key within one read; a read may be empty. */
  ghost predicate Carries(input: seq<Arrival>, groups: seq<seq<Edit>>) {
    |input| == |groups| && forall j :: 0 <= j < |input| ==> input[j].bytes == BytesOf(groups[j])
  }

  function Flat(groups: seq<seq<Edit>>): seq<Edit> {
    if groups == [] then [] else groups[0] + Flat(groups[1..])
  }

  /** How many bytes arrive. */
  function Volume(input: seq<Arrival>): nat {
    if input == [] then 0 else |input[0].bytes| + Volume(input[1..])
  }

  lemma {:induction false} AppliedConcat(ed: Editor, history: seq<string>, a: seq<Edit>, b: seq<Edit>)
    requires ed.histPos <= |history|
    ensures AppliedAll(ed, history, a + b) == AppliedAll(AppliedAll(ed, history, a), history, b)
    ensures Quiet(ed, history, a + b) <==> Quiet(ed, history, a) && Quiet(AppliedAll(ed, history, a), history, b)
    decreases |a|
  {
    hide Applied, IsKey;
    if a == [] {
      assert a + b == b;
    } else {
      assert (a + b)[1..] == a[1..] + b;
      AppliedConcat(Applied(ed, history, a[0]), history, a[1..], b);
    }
  }

  /** The gap before a read, if it is kept. */
  function GapOf(a: Arrival): seq<int> {
    if a.bytes != [] && 0 <= a.gap < 0x8000_0000 then [a.gap] else []
  }

  /** One read of keys. */
  lemma OneRead(
    ed: Editor, history: seq<string>, prompt: string, inBytes: nat, limit: int, a: Arrival, es: seq<Edit>, more: seq<Arrival>)
    requires ed.histPos <= |history| && a.bytes == BytesOf(es) && Quiet(ed, history, es) && inBytes + |a.bytes| <= limit
    ensures var r, s := ReadFrom(ed, history, prompt, inBytes, limit, [a] + more),
                        ReadFrom(AppliedAll(ed, history, es), history, prompt, inBytes + |a.bytes|, limit, more);
            && r.editor == s.editor && r.outcome == s.outcome && r.inBytes == s.inBytes
            && r.deltas == GapOf(a) + s.deltas && r.bulk == (CountTyped(a.bytes) > 2 || s.bulk)
  {
    hide EditChunk, Quiet, AppliedAll, CountTyped, BytesOf;
    assert ([a] + more)[1..] == more;
    ReadOfKeys(ed, history, prompt, es);
    NoKeys(ed, history, prompt, es);
    NoneTyped();
    var s := ReadFrom(AppliedAll(ed, history, es), history, prompt, inBytes + |a.bytes|, limit, more);
    assert [] + s.deltas == s.deltas;
  }

  /** Reads of keys within the limit are taken one after the other. */
  lemma {:induction false} ReadsApply(
    ed: Editor, history: seq<string>, prompt: string, inBytes: nat, limit: int, input: seq<Arrival>, groups: seq<seq<Edit>>,
    rest: seq<Arrival>)
    requires ed.histPos <= |history| && Carries(input, groups) && Quiet(ed, history, Flat(groups))
    requires inBytes + Volume(input) <= limit
    ensures var r, s := ReadFrom(ed, history, prompt, inBytes, limit, input + rest),
                        ReadFrom(AppliedAll(ed, history, Flat(groups)), history, prompt, inBytes + Volume(input), limit, rest);
            r.editor == s.editor && r.outcome == s.outcome && r.inBytes == s.inBytes
    decreases |input|
  {
    hide ReadFrom, Quiet, AppliedAll, BytesOf;
    if input == [] {
      assert input + rest == rest;
      NothingApplied(ed, history);
    } else {
      var es := groups[0];
      assert input + rest == [input[0]] + (input[1..] + rest);
      AppliedConcat(ed, history, es, Flat(groups[1..]));
      OneRead(ed, history, prompt, inBytes, limit, input[0], es, input[1..] + rest);
      ReadsApply(AppliedAll(ed, history, es), history, prompt, inBytes + |input[0].bytes|, limit, input[1..], groups[1..], rest);
    }
  }

  lemma NothingApplied(ed: Editor, history: seq<string>)
    requires ed.histPos <= |history|
    ensures AppliedAll(ed, history, []) == ed
  {
  }

  lemma NoKeys(ed: Editor, history: seq<string>, prompt: string, es: seq<Edit>)
    requires ed.histPos <= |history|
    ensures BytesOf(es) == [] <==> es == []
    ensures es == [] ==> AppliedAll(ed, history, es) == ed
  {
    if es != [] {
      KeyNotEmpty(es[0]);
    }
  }

  /** The line a script of keys gives. Cut into whatever reads, within the input
      limit, and ended by a return, the keys leave the line that they say, and what
      follows the return in its read is dropped. */
  lemma LineOfScript(
    ed: Editor, history: seq<string>, prompt: string, inBytes: nat, limit: int, input: seq<Arrival>, groups: seq<seq<Edit>>,
    last: seq<Edit>, end: Byte, dropped: seq<Byte>, gap: int)
    requires ed.histPos <= |history| && Carries(input, groups) && Quiet(ed, history, Flat(groups) + last)
    requires end == 13 || end == 10
    requires inBytes + Volume(input) + |BytesOf(last) + [end] + dropped| <= limit
    ensures var r := ReadFrom(ed, history, prompt, inBytes, limit, input + [Arrival(gap, BytesOf(last) + [end] + dropped)]);
            r.outcome == GotLine && r.editor.buf == AppliedAll(ed, history, Flat(groups) + last).buf
  {
    hide EditChunk, Quiet, AppliedAll, CountTyped, Delta, BytesOf;
    var a := Arrival(gap, BytesOf(last) + [end] + dropped);
    AppliedConcat(ed, history, Flat(groups), last);
    ReadsApply(ed, history, prompt, inBytes, limit, input, groups, [a]);
    ReadToEnd(AppliedAll(ed, history, Flat(groups)), history, prompt, last, end, dropped);
  }

  /** ^D ends the session on an empty line. */
  lemma LogoutOfScript(
    ed: Editor, history: seq<string>, prompt: string, inBytes: nat, limit: int, input: seq<Arrival>, groups: seq<seq<Edit>>,
    last: seq<Edit>, dropped: seq<Byte>, gap: int)
    requires ed.histPos <= |history| && Carries(input, groups) && Quiet(ed, history, Flat(groups) + last)
    requires AppliedAll(ed, history, Flat(groups) + last).buf == ""
    requires inBytes + Volume(input) + |BytesOf(last) + [4] + dropped| <= limit
    ensures ReadFrom(ed, history, prompt, inBytes, limit, input + [Arrival(gap, BytesOf(last) + [4] + dropped)]).outcome == Logout
  {
    hide EditChunk, Quiet, AppliedAll, CountTyped, Delta, BytesOf;
    var a := Arrival(gap, BytesOf(last) + [4] + dropped);
    AppliedConcat(ed, history, Flat(groups), last);
    ReadsApply(ed, history, prompt, inBytes, limit, input, groups, [a]);
    ReadToEnd(AppliedAll(ed, history, Flat(groups)), history, prompt, last, 4, dropped);
  }

  // ----- What scripts come to.

  function Chars(bytes: seq<Byte>): (s: string)
    ensures |s| == |bytes|
  {
    seq(|bytes|, i requires 0 <= i < |bytes| => bytes[i] as char)
  }

  function Typed(text: seq<Byte>): seq<Edit> {
    seq(|text|, i requires 0 <= i < |text| => Type(text[i]))
  }

  ghost predicate AllTyped(text: seq<Byte>) {
    forall i :: 0 <= i < |text| ==> text[i] >= 0x20 && text[i] != 0x7F
  }

  function Repeat(n: nat, e: Edit): seq<Edit> {
    seq(n, _ => e)
  }

  /** Typing appends what is typed. */
  lemma {:induction false} TypingAppends(ed: Editor, history: seq<string>, text: seq<Byte>)
    requires ed.histPos <= |history| && AllTyped(text)
    ensures Quiet(ed, history, Typed(text))
    ensures AppliedAll(ed, history, Typed(text)) == ed.(buf := ed.buf + Chars(text))
    ensures BytesOf(Typed(text)) == text
    decreases |text|
  {
    if text == [] {
      assert ed.buf + Chars(text) == ed.buf;
    } else {
      assert Typed(text)[1..] == Typed(text[1..]) && Typed(text)[0] == Type(text[0]);
      TypingAppends(ed.(buf := ed.buf + [text[0] as char]), history, text[1..]);
      assert ed.buf + [text[0] as char] + Chars(text[1..]) == ed.buf + Chars(text);
      assert [text[0]] + text[1..] == text;
    }
  }

  /** Each backspace takes the last character off, if there is one. */
  lemma {:induction false} RuboutsRemove(ed: Editor, history: seq<string>, n: nat, b: Byte)
    requires ed.histPos <= |history| && (b == 0x7F || b == 8)
    ensures Quiet(ed, history, Repeat(n, Rubout(b)))
    ensures AppliedAll(ed, history, Repeat(n, Rubout(b))) == ed.(buf := ed.buf[..if n <= |ed.buf| then |ed.buf| - n else 0])
    decreases n
  {
    if n == 0 {
      assert ed.buf[..|ed.buf|] == ed.buf;
    } else {
      assert Repeat(n, Rubout(b))[1..] == Repeat(n - 1, Rubout(b));
      RuboutsRemove(Applied(ed, history, Rubout(b)), history, n - 1, b);
    }
  }

  /** ^U and ^C empty the line, whatever is on it, and leave the place in the history. */
  lemma ErasesLine(ed: Editor, history: seq<string>, es: seq<Edit>, e: Edit)
    requires ed.histPos <= |history| && (e == EraseLine || e == Interrupt)
    ensures AppliedAll(ed, history, es + [e]) == AppliedAll(ed, history, es).(buf := "")
  {
    hide Quiet;
    AppliedConcat(ed, history, es, [e]);
    assert [e][1..] == [];
  }

  /** What is on the line at a place in the history. */
  function EntryAt(history: seq<string>, pos: nat): string {
    if pos < |history| then history[pos] else ""
  }

  lemma {:induction false} UpsRecall(ed: Editor, history: seq<string>, n: nat)
    requires ed.histPos <= |history|
    ensures Quiet(ed, history, Repeat(n, Up))
    ensures var pos := if n <= ed.histPos then ed.histPos - n else 0;
            AppliedAll(ed, history, Repeat(n, Up)) ==
              if n == 0 || ed.histPos == 0 then ed else Editor(EntryAt(history, pos), pos)
    decreases n
  {
    if n > 0 {
      assert Repeat(n, Up)[1..] == Repeat(n - 1, Up);
      UpsRecall(Applied(ed, history, Up), history, n - 1);
    }
  }

  lemma {:induction false} DownsRecall(ed: Editor, history: seq<string>, n: nat)
    requires ed.histPos <= |history|
    ensures Quiet(ed, history, Repeat(n, Down))
    ensures var pos := if ed.histPos + n <= |history| then ed.histPos + n else |history|;
            AppliedAll(ed, history, Repeat(n, Down)) == if n == 0 then ed else Editor(EntryAt(history, pos), pos)
    decreases n
  {
    if n > 0 {
      assert Repeat(n, Down)[1..] == Repeat(n - 1, Down);
      DownsRecall(Applied(ed, history, Down), history, n - 1);
    }
  }

  /** From a fresh line, `u` times up and then `d` times down end at the entry so
      many places back and forth, and past the last one on an empty line. */
  lemma ArrowsRecall(history: seq<string>, u: nat, d: nat)
    ensures var n := |history|;
            var back := if u <= n then n - u else 0;
            var pos := if back + d <= n then back + d else n;
            Quiet(Editor("", n), history, Repeat(u, Up) + Repeat(d, Down))
            && AppliedAll(Editor("", n), history, Repeat(u, Up) + Repeat(d, Down)).buf == EntryAt(history, pos)
  {
    hide Quiet, AppliedAll, Repeat, EntryAt;
    var start, n := Editor("", |history|), |history|;
    var back := if u <= n then n - u else 0;
    NoEntry(history);
    UpsRecall(start, history, u);
    AppliedConcat(start, history, Repeat(u, Up), Repeat(d, Down));
    var mid := AppliedAll(start, history, Repeat(u, Up));
    assert mid.histPos == back && mid.buf == EntryAt(history, back);
    DownsRecall(mid, history, d);
  }

  lemma NoEntry(history: seq<string>)
    ensures EntryAt(history, |history|) == ""
  {
  }

  /** Other control characters and sequences, and ^D on a line that is not empty, do
      nothing. */
  lemma OthersIdle(ed: Editor, history: seq<string>, e: Edit)
    requires ed.histPos <= |history| && (e.OtherSequence? || e.EndOfText? || e.Control?)
    ensures AppliedAll(ed, history, [e]) == ed
  {
    assert [e][1..] == [];
  }

  // ----- Plain typing, in the terms of the connection alone.

  function AllBytes(input: seq<Arrival>): seq<Byte> {
    if input == [] then [] else input[0].bytes + AllBytes(input[1..])
  }

  function TypedGroups(input: seq<Arrival>): seq<seq<Edit>> {
    seq(|input|, i requires 0 <= i < |input| => Typed(input[i].bytes))
  }

  lemma {:induction false} TypedCarries(ed: Editor, history: seq<string>, input: seq<Arrival>)
    requires ed.histPos <= |history| && AllTyped(AllBytes(input))
    ensures Carries(input, TypedGroups(input)) && Flat(TypedGroups(input)) == Typed(AllBytes(input))
    ensures Volume(input) == |AllBytes(input)|
    decreases |input|
  {
    hide BytesOf, Carries;
    if input == [] {
      NothingCarried();
    } else {
      var b, all := input[0].bytes, AllBytes(input);
      TypedSplit(b, AllBytes(input[1..]));
      TypingAppends(ed, history, b);
      TypedCarries(ed, history, input[1..]);
      assert TypedGroups(input) == [Typed(b)] + TypedGroups(input[1..]);
      assert input == [input[0]] + input[1..];
      CarriesMore(input[0], Typed(b), input[1..], TypedGroups(input[1..]));
    }
  }

  lemma NothingCarried()
    ensures Carries([], [])
  {
  }

  lemma CarriesMore(a: Arrival, es: seq<Edit>, input: seq<Arrival>, groups: seq<seq<Edit>>)
    requires a.bytes == BytesOf(es) && Carries(input, groups)
    ensures Carries([a] + input, [es] + groups)
  {
    hide BytesOf;
  }

  lemma TypedSplit(a: seq<Byte>, b: seq<Byte>)
    requires AllTyped(a + b)
    ensures AllTyped(a) && AllTyped(b) && Typed(a) + Typed(b) == Typed(a + b)
  {
    assert forall i :: 0 <= i < |a| ==> a[i] == (a + b)[i];
    assert forall i :: 0 <= i < |b| ==> b[i] == (a + b)[|a| + i];
  }

  /** What is typed is the line: text in any reads, within the limit, and a return,
      is handed on behind what was on the line already. */
  lemma TypedIsLine(
    ed: Editor, history: seq<string>, prompt: string, inBytes: nat, limit: int, input: seq<Arrival>, last: seq<Byte>, end: Byte,
    dropped: seq<Byte>, gap: int)
    requires ed.histPos <= |history| && AllTyped(AllBytes(input)) && AllTyped(last) && (end == 13 || end == 10)
    requires inBytes + |AllBytes(input)| + |last + [end] + dropped| <= limit
    ensures var r := ReadFrom(ed, history, prompt, inBytes, limit, input + [Arrival(gap, last + [end] + dropped)]);
            r.outcome == GotLine && r.editor.buf == ed.buf + Chars(AllBytes(input) + last)
  {
    hide ReadFrom, Quiet, AppliedAll, BytesOf, Carries;
    var text := AllBytes(input);
    TypedCarries(ed, history, input);
    TypingAppends(ed, history, text + last);
    TypingAppends(ed, history, last);
    assert Typed(text) + Typed(last) == Typed(text + last);
    LineOfScript(ed, history, prompt, inBytes, limit, input, TypedGroups(input), Typed(last), end, dropped, gap);
  }

  // ----- What else a read reports.

  /** How many bytes of a read a user would have typed. */
  ghost function TypedAt(bytes: seq<Byte>): set<int> {
    set i | 0 <= i < |bytes| && bytes[i] >= 0x20 && bytes[i] != 0x7F
  }

  lemma {:induction false} CountIsTyped(bytes: seq<Byte>)
    ensures CountTyped(bytes) == |TypedAt(bytes)|
  {
    if bytes == [] {
      assert TypedAt(bytes) == {};
    } else {
      var n := |bytes| - 1;
      CountIsTyped(bytes[..n]);
      assert TypedAt(bytes) == TypedAt(bytes[..n]) + if TypedByte(bytes[n]) then {n} else {};
    }
  }

  /** The gaps of the reads that were not empty, those that do not fit 31 bits left out. */
  function Gaps(input: seq<Arrival>): seq<int> {
    if input == [] then [] else GapOf(input[0]) + Gaps(input[1..])
  }

  ghost predicate Pasted(input: seq<Arrival>) {
    exists j :: 0 <= j < |input| && |TypedAt(input[j].bytes)| > 2
  }

  lemma PastedFirst(input: seq<Arrival>)
    requires input != []
    ensures Pasted(input) <==> |TypedAt(input[0].bytes)| > 2 || Pasted(input[1..])
  {
    hide TypedAt;
    assert forall j :: 0 <= j < |input| - 1 ==> input[1..][j] == input[j + 1];
    assert forall j :: 0 < j < |input| ==> input[j] == input[1..][j - 1];
  }

  /** Where the keys end before the line does: how many bytes came, the gaps between
      reads, and that the line counts as pasted exactly when some read held more than
      two typed bytes. */
  lemma {:induction false} ReadsReport(
    ed: Editor, history: seq<string>, prompt: string, inBytes: nat, limit: int, input: seq<Arrival>, groups: seq<seq<Edit>>)
    requires ed.histPos <= |history| && Carries(input, groups) && Quiet(ed, history, Flat(groups))
    requires inBytes + Volume(input) <= limit
    ensures var r := ReadFrom(ed, history, prompt, inBytes, limit, input);
            && r.outcome == InputClosed && r.inBytes == inBytes + Volume(input) && r.deltas == Gaps(input)
            && (r.bulk <==> Pasted(input))
    decreases |input|
  {
    hide ReadFrom, Quiet, AppliedAll, BytesOf, CountTyped, TypedAt;
    if input == [] {
      ReadEnd(ed, history, prompt, inBytes, limit);
    } else {
      AppliedConcat(ed, history, groups[0], Flat(groups[1..]));
      assert input == [input[0]] + input[1..];
      OneRead(ed, history, prompt, inBytes, limit, input[0], groups[0], input[1..]);
      CountIsTyped(input[0].bytes);
      PastedFirst(input);
      ReadsReport(AppliedAll(ed, history, groups[0]), history, prompt, inBytes + |input[0].bytes|, limit, input[1..], groups[1..]);
    }
  }

  lemma NoneTyped()
    ensures CountTyped([]) == 0
  {
  }

  /** Past the limit, reading stops at once, whatever the read that passes it holds. */
  lemma LimitStops(
    ed: Editor, history: seq<string>, prompt: string, inBytes: nat, limit: int, input: seq<Arrival>, groups: seq<seq<Edit>>,
    over: Arrival, rest: seq<Arrival>)
    requires ed.histPos <= |history| && Carries(input, groups) && Quiet(ed, history, Flat(groups))
    requires inBytes + Volume(input) <= limit < inBytes + Volume(input) + |over.bytes|
    ensures var r := ReadFrom(ed, history, prompt, inBytes, limit, input + [over] + rest);
            r.outcome == LimitExceeded && r.editor == AppliedAll(ed, history, Flat(groups))
  {
    hide EditChunk, Quiet, AppliedAll, BytesOf, CountTyped, Delta;
    assert input + [over] + rest == input + ([over] + rest);
    ReadsApply(ed, history, prompt, inBytes, limit, input, groups, [over] + rest);
  }
}
