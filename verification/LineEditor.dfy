/** The interactive line editor (`readLine` and `replaceLine` in
    node/internal/shell/shell.go) against a terminal that replays its echo. */
module LineEditor {
  import opened Basics

  // ----- The client's terminal, as far as one line goes.

  /** The cells of the current line and the cursor's column. */
  datatype Screen = Screen(line: string, cursor: nat)

  const FRESH: Screen := Screen("", 0)

  function Blanks(n: nat): (s: string)
    ensures |s| == n && forall i :: 0 <= i < n ==> s[i] == ' '
  {
    seq(n, _ => ' ')
  }

  predicate PrintableChar(c: char) {
    c >= ' ' && c != '\U{7F}'
  }

  predicate Printable(s: string) {
    forall i :: 0 <= i < |s| ==> PrintableChar(s[i])
  }

  /** One character arriving: backspace moves left, a printable one is written
      over the cell under the cursor, a line feed opens a blank line. */
  function Show(s: Screen, c: char): Screen {
    if c == '\U{08}' then Screen(s.line, if s.cursor == 0 then 0 else s.cursor - 1)
    else if c == '\r' then Screen(s.line, 0)
    else if c == '\n' then Screen(Blanks(s.cursor), s.cursor)
    else if PrintableChar(c) then
      var line := if s.cursor <= |s.line| then s.line else s.line + Blanks(s.cursor - |s.line|);
      Screen(line[..s.cursor] + [c] + (if s.cursor < |line| then line[s.cursor + 1..] else ""), s.cursor + 1)
    else s
  }

  function Replay(s: Screen, echo: string): Screen
    decreases |echo|
  {
    if echo == "" then s else Replay(Show(s, echo[0]), echo[1..])
  }

  /** The screen shows exactly `text`, with the cursor after it and only blanks beyond. */
  predicate Shows(s: Screen, text: string) {
    s.cursor == |text| && text <= s.line && forall i :: |text| <= i < |s.line| ==> s.line[i] == ' '
  }

  // ----- The editor.

  /** The line so far and the position in the history. */
  datatype Editor = Editor(buf: string, histPos: nat)

  datatype Ending = Typing | LineDone | LoggedOut

  /** What one key does: the editor after it, the bytes echoed, how many input
      bytes it took, and whether it ended the line. */
  datatype Key = Key(editor: Editor, echo: string, taken: nat, ending: Ending)

  const ERASE: string := "\U{08} \U{08}"

  function Erases(n: nat): string {
    if n == 0 then "" else ERASE + Erases(n - 1)
  }

  function Recall(ed: Editor, histPos: nat, next: string): Key {
    Key(Editor(next, histPos), Erases(|ed.buf|) + next, 3, Typing)
  }

  function Press(ed: Editor, history: seq<string>, prompt: string, chunk: seq<Byte>, i: nat): (k: Key)
    requires i < |chunk| && ed.histPos <= |history|
    ensures 1 <= k.taken <= |chunk| - i && k.editor.histPos <= |history|
  {
    var b := chunk[i];
    if b == 13 || b == 10 then Key(ed, "\r\n", 1, LineDone)
    else if b == 3 then Key(ed.(buf := ""), "^C\r\n" + prompt, 1, Typing)
    else if b == 4 then if ed.buf == "" then Key(ed, "logout\r\n", 1, LoggedOut) else Key(ed, "", 1, Typing)
    else if b == 0x7F || b == 8 then
      if ed.buf != "" then Key(ed.(buf := ed.buf[..|ed.buf| - 1]), ERASE, 1, Typing) else Key(ed, "", 1, Typing)
    else if b == 0x15 then Key(ed.(buf := ""), Erases(|ed.buf|), 1, Typing)
    else if b == 0x1B then
      if i + 2 < |chunk| && chunk[i + 1] == '[' as int then
        if chunk[i + 2] == 'A' as int && ed.histPos > 0 then Recall(ed, ed.histPos - 1, history[ed.histPos - 1])
        else if chunk[i + 2] == 'B' as int then
          if ed.histPos < |history| - 1 then Recall(ed, ed.histPos + 1, history[ed.histPos + 1])
          else Recall(ed, |history|, "")
        else Key(ed, "", 3, Typing)
      else Key(ed, "", 1, Typing)
    else if b >= 0x20 then Key(ed.(buf := ed.buf + [b as char]), [b as char], 1, Typing)
    else Key(ed, "", 1, Typing)
  }

  // ----- Replaying.

  lemma {:induction false} ReplayConcat(s: Screen, a: string, b: string)
    ensures Replay(s, a + b) == Replay(Replay(s, a), b)
    decreases |a|
  {
    if a == "" {
      assert a + b == b;
    } else {
      assert (a + b)[1..] == a[1..] + b;
      ReplayConcat(Show(s, a[0]), a[1..], b);
    }
  }

  lemma ReplayOne(s: Screen, c: char)
    ensures Replay(s, [c]) == Show(s, c)
  {
    assert [c][1..] == "";
  }

  lemma ShowPrintable(s: Screen, text: string, c: char)
    requires Shows(s, text) && PrintableChar(c)
    ensures Shows(Show(s, c), text + [c])
  {
  }

  /** Printing printable text appends it to what is shown. */
  lemma {:induction false} ReplayPrintable(s: Screen, text: string, more: string)
    requires Shows(s, text) && Printable(more)
    ensures Shows(Replay(s, more), text + more)
    decreases |more|
  {
    if more == "" {
      assert text + more == text;
    } else {
      ShowPrintable(s, text, more[0]);
      ReplayPrintable(Show(s, more[0]), text + [more[0]], more[1..]);
      assert text + [more[0]] + more[1..] == text + more;
    }
  }

  lemma ReplayErase(s: Screen, text: string, c: char)
    requires Shows(s, text + [c])
    ensures Shows(Replay(s, ERASE), text)
  {
    var s1 := Show(s, '\U{08}');
    var s2 := Show(s1, ' ');
    var s3 := Show(s2, '\U{08}');
    assert ERASE == ['\U{08}'] + ([' '] + ['\U{08}']);
    ReplayConcat(s, ['\U{08}'], [' '] + ['\U{08}']);
    ReplayConcat(s1, [' '], ['\U{08}']);
    ReplayOne(s, '\U{08}');
    ReplayOne(s1, ' ');
    ReplayOne(s2, '\U{08}');
    assert (text + [c])[..|text|] == text;
    assert s3.line[..|text|] == text;
  }

  /** Erasing as often as there are characters leaves only what was before them. */
  lemma {:induction false} ReplayErases(s: Screen, text: string, buf: string)
    requires Shows(s, text + buf)
    ensures Shows(Replay(s, Erases(|buf|)), text)
    decreases |buf|
  {
    if buf == "" {
      assert text + buf == text;
    } else {
      var rest, c := buf[..|buf| - 1], buf[|buf| - 1];
      assert text + buf == (text + rest) + [c];
      ReplayErase(s, text + rest, c);
      ReplayConcat(s, ERASE, Erases(|rest|));
      ReplayErases(Replay(s, ERASE), text, rest);
    }
  }

  /** Printed on a fresh line, the prompt leaves this text and the cursor after it. */
  predicate PromptShows(prompt: string, text: string) {
    Shows(Replay(FRESH, prompt), text)
  }

  /** The characters that fill a cell. */
  function Visible(s: string): string {
    if s == "" then "" else (if PrintableChar(s[0]) then [s[0]] else "") + Visible(s[1..])
  }

  predicate MovesCursor(c: char) {
    c == '\U{08}' || c == '\r' || c == '\n'
  }

  lemma ShowOther(s: Screen, c: char)
    requires !PrintableChar(c) && !MovesCursor(c)
    ensures Show(s, c) == s
  {
  }

  lemma ShowOne(s: Screen, text: string, c: char)
    requires Shows(s, text) && !MovesCursor(c)
    ensures Shows(Show(s, c), text + Visible([c]))
  {
    hide Show, Shows;
    VisibleOne(c);
    if PrintableChar(c) {
      ShowPrintable(s, text, c);
    } else {
      ShowOther(s, c);
      assert text + "" == text;
    }
  }

  lemma VisibleOne(c: char)
    ensures Visible([c]) == if PrintableChar(c) then [c] else ""
  {
    assert [c][1..] == "";
    assert (if PrintableChar(c) then [c] else "") + "" == if PrintableChar(c) then [c] else "";
  }

  lemma VisibleFirst(text: string, more: string)
    requires more != ""
    ensures text + Visible([more[0]]) + Visible(more[1..]) == text + Visible(more)
  {
    hide PrintableChar;
    VisibleOne(more[0]);
    assert Visible(more) == Visible([more[0]]) + Visible(more[1..]);
    Regroup(text, Visible([more[0]]), Visible(more[1..]));
  }

  lemma {:induction false} ReplayVisible(s: Screen, text: string, more: string)
    requires Shows(s, text) && forall i :: 0 <= i < |more| ==> !MovesCursor(more[i])
    ensures Shows(Replay(s, more), text + Visible(more))
    decreases |more|
  {
    hide Show, Shows, Visible, MovesCursor;
    if more == "" {
      NothingVisible(text);
    } else {
      ShowOne(s, text, more[0]);
      ReplayVisible(Show(s, more[0]), text + Visible([more[0]]), more[1..]);
      VisibleFirst(text, more);
    }
  }

  lemma NothingVisible(text: string)
    ensures text + Visible("") == text
  {
  }

  /** A prompt that never moves the cursor back shows its visible characters. */
  lemma PromptVisible(prompt: string)
    requires forall i :: 0 <= i < |prompt| ==> !MovesCursor(prompt[i])
    ensures PromptShows(prompt, Visible(prompt))
  {
    ReplayVisible(FRESH, "", prompt);
    assert "" + Visible(prompt) == Visible(prompt);
  }

  /** After `^C` and a new line, the prompt stands alone. */
  lemma ReplayInterrupt(s: Screen, prompt: string, text: string)
    requires PromptShows(prompt, text)
    ensures Shows(Replay(s, "^C\r\n" + prompt), text)
  {
    hide Replay, Show, Printable;
    var t := Replay(s, "^C");
    assert "^C\r\n" + prompt == "^C" + ("\r\n" + prompt);
    ReplayConcat(s, "^C", "\r\n" + prompt);
    ReplayConcat(t, "\r\n", prompt);
    ReplayNewline(t);
  }

  lemma ReplayNewline(s: Screen)
    ensures Replay(s, "\r\n") == FRESH
  {
    assert "\r\n" == ['\r'] + ['\n'];
    ReplayConcat(s, ['\r'], ['\n']);
    ReplayOne(s, '\r');
    ReplayOne(Show(s, '\r'), '\n');
  }

  ghost predicate HistoryPrintable(history: seq<string>) {
    forall i :: 0 <= i < |history| ==> Printable(history[i])
  }

  /** Recalling a line replaces what is shown after the prompt. */
  lemma RecallShows(s: Screen, ed: Editor, histPos: nat, next: string, text: string)
    requires Shows(s, text + ed.buf) && Printable(next)
    ensures Shows(Replay(s, Recall(ed, histPos, next).echo), text + next)
  {
    ReplayConcat(s, Erases(|ed.buf|), next);
    ReplayErases(s, text, ed.buf);
    ReplayPrintable(Replay(s, Erases(|ed.buf|)), text, next);
  }

  /** Every key that does not end the line keeps the screen showing the prompt
      followed by the buffer, and the buffer printable. */
  lemma PressKeepsScreen(
    s: Screen, ed: Editor, history: seq<string>, prompt: string, text: string, chunk: seq<Byte>, i: nat)
    requires i < |chunk| && ed.histPos <= |history| && HistoryPrintable(history) && PromptShows(prompt, text)
    requires Shows(s, text + ed.buf) && Printable(ed.buf)
    ensures var k := Press(ed, history, prompt, chunk, i);
            Printable(k.editor.buf) && (k.ending.Typing? ==> Shows(Replay(s, k.echo), text + k.editor.buf))
  {
    hide Shows, Erases, Recall, Show;
    RecallBuf(ed, 0, "");
    var b := chunk[i];
    var k := Press(ed, history, prompt, chunk, i);
    if b == 3 {
      ReplayInterrupt(s, prompt, text);
      assert text + "" == text;
    } else if (b == 0x7F || b == 8) && ed.buf != "" {
      var rest, c := ed.buf[..|ed.buf| - 1], ed.buf[|ed.buf| - 1];
      assert text + ed.buf == text + rest + [c];
      ReplayErase(s, text + rest, c);
    } else if b == 0x15 {
      ReplayErases(s, text, ed.buf);
      assert text + "" == text;
    } else if b == 0x1B && i + 2 < |chunk| && chunk[i + 1] == '[' as int && chunk[i + 2] == 'A' as int && ed.histPos > 0 {
      RecallBuf(ed, ed.histPos - 1, history[ed.histPos - 1]);
      RecallShows(s, ed, ed.histPos - 1, history[ed.histPos - 1], text);
    } else if b == 0x1B && i + 2 < |chunk| && chunk[i + 1] == '[' as int && chunk[i + 2] == 'B' as int {
      var pos := if ed.histPos < |history| - 1 then ed.histPos + 1 else |history|;
      var next := if ed.histPos < |history| - 1 then history[ed.histPos + 1] else "";
      RecallBuf(ed, pos, next);
      RecallShows(s, ed, pos, next, text);
    } else if b >= 0x20 && b != 0x7F {
      ReplayPrintable(s, text + ed.buf, [b as char]);
      assert text + ed.buf + [b as char] == text + (ed.buf + [b as char]);
    }
  }

  lemma RecallBuf(ed: Editor, histPos: nat, next: string)
    ensures Recall(ed, histPos, next).editor.buf == next && Recall(ed, histPos, next).ending.Typing?
  {
  }

  // ----- Whole reads and whole lines.

  /** A stretch of editing: the editor after it, everything echoed, and how it ended. */
  datatype Stretch = Stretch(editor: Editor, echo: string, ending: Ending)

  /** The bytes of one read, from position `i` until the line ends or they run out. */
  function EditChunk(ed: Editor, history: seq<string>, prompt: string, chunk: seq<Byte>, i: nat): (r: Stretch)
    requires i <= |chunk| && ed.histPos <= |history|
    ensures r.editor.histPos <= |history|
    decreases |chunk| - i
  {
    if i == |chunk| then Stretch(ed, "", Typing)
    else
      var k := Press(ed, history, prompt, chunk, i);
      if k.ending != Typing then Stretch(k.editor, k.echo, k.ending)
      else
        var rest := EditChunk(k.editor, history, prompt, chunk, i + k.taken);
        Stretch(rest.editor, k.echo + rest.echo, rest.ending)
  }

  lemma EditNext(ed: Editor, history: seq<string>, prompt: string, chunk: seq<Byte>, i: nat)
    requires i <= |chunk| && ed.histPos <= |history|
    ensures i == |chunk| ==> EditChunk(ed, history, prompt, chunk, i) == Stretch(ed, "", Typing)
    ensures i < |chunk| ==>
      var k := Press(ed, history, prompt, chunk, i);
      var rest := EditChunk(k.editor, history, prompt, chunk, i + k.taken);
      EditChunk(ed, history, prompt, chunk, i) ==
        if k.ending != Typing then Stretch(k.editor, k.echo, k.ending)
        else Stretch(rest.editor, k.echo + rest.echo, rest.ending)
  {
    hide Press;
  }

  datatype Outcome = GotLine | Logout | InputClosed | LimitExceeded

  /** One read of the connection: the milliseconds since the last one that was
      not empty, and what it returned. */
  datatype Arrival = Arrival(gap: int, bytes: seq<Byte>)

  datatype Session = Session(
    editor: Editor, echo: string, inBytes: nat, deltas: seq<int>, bulk: bool, outcome: Outcome)

  function Before(echo: string, deltas: seq<int>, bulk: bool, s: Session): Session {
    s.(echo := echo + s.echo, deltas := deltas + s.deltas, bulk := bulk || s.bulk)
  }

  /** A gap that fits the 31 bits kept of it. */
  function Delta(gap: int): seq<int> {
    if 0 <= gap < 0x8000_0000 then [gap] else []
  }

  predicate TypedByte(b: Byte) {
    b >= 0x20 && b != 0x7F
  }

  function CountTyped(bytes: seq<Byte>): nat {
    if bytes == [] then 0 else CountTyped(bytes[..|bytes| - 1]) + if TypedByte(bytes[|bytes| - 1]) then 1 else 0
  }

  /** Reading until a line is complete, the input closes or the limit is passed. */
  function ReadFrom(ed: Editor, history: seq<string>, prompt: string, inBytes: nat, limit: int, input: seq<Arrival>): Session
    requires ed.histPos <= |history|
    decreases |input|
  {
    if input == [] then Session(ed, "", inBytes, [], false, InputClosed)
    else
      var bytes, deltas := input[0].bytes, Delta(input[0].gap);
      if bytes == [] then ReadFrom(ed, history, prompt, inBytes, limit, input[1..])
      else if inBytes + |bytes| > limit then Session(ed, "", inBytes + |bytes|, deltas, false, LimitExceeded)
      else
        var r, bulk := EditChunk(ed, history, prompt, bytes, 0), CountTyped(bytes) > 2;
        match r.ending
        case LineDone => Session(r.editor, r.echo, inBytes + |bytes|, deltas, bulk, GotLine)
        case LoggedOut => Session(r.editor, r.echo, inBytes + |bytes|, deltas, bulk, Logout)
        case Typing =>
          Before(r.echo, deltas, bulk, ReadFrom(r.editor, history, prompt, inBytes + |bytes|, limit, input[1..]))
  }

  /** One turn of the reading loop. */
  lemma ReadNext(ed: Editor, history: seq<string>, prompt: string, inBytes: nat, limit: int, input: seq<Arrival>, j: nat)
    requires ed.histPos <= |history| && j < |input|
    ensures var bytes, deltas := input[j].bytes, Delta(input[j].gap);
            ReadFrom(ed, history, prompt, inBytes, limit, input[j..]) ==
              if bytes == [] then ReadFrom(ed, history, prompt, inBytes, limit, input[j + 1..])
              else if inBytes + |bytes| > limit then Session(ed, "", inBytes + |bytes|, deltas, false, LimitExceeded)
              else
                var r, bulk := EditChunk(ed, history, prompt, bytes, 0), CountTyped(bytes) > 2;
                match r.ending
                case LineDone => Session(r.editor, r.echo, inBytes + |bytes|, deltas, bulk, GotLine)
                case LoggedOut => Session(r.editor, r.echo, inBytes + |bytes|, deltas, bulk, Logout)
                case Typing =>
                  Before(r.echo, deltas, bulk, ReadFrom(r.editor, history, prompt, inBytes + |bytes|, limit, input[j + 1..]))
  {
    hide EditChunk, CountTyped, Delta;
    assert input[j..][0] == input[j] && input[j..][1..] == input[j + 1..];
  }

  lemma ReadEnd(ed: Editor, history: seq<string>, prompt: string, inBytes: nat, limit: int)
    requires ed.histPos <= |history|
    ensures ReadFrom(ed, history, prompt, inBytes, limit, []) == Session(ed, "", inBytes, [], false, InputClosed)
  {
  }

  lemma BeforeTwice(a: string, d: seq<int>, x: bool, b: string, e: seq<int>, y: bool, s: Session)
    ensures Before(a, d, x, Before(b, e, y, s)) == Before(a + b, d + e, x || y, s)
  {
    assert a + (b + s.echo) == a + b + s.echo;
    assert d + (e + s.deltas) == d + e + s.deltas;
  }

  lemma BeforeNothing(s: Session)
    ensures Before("", [], false, s) == s
  {
    assert "" + s.echo == s.echo && [] + s.deltas == s.deltas;
  }

  lemma ErasesSnoc(n: nat)
    ensures Erases(n + 1) == Erases(n) + ERASE
  {
    if n > 0 {
      ErasesSnoc(n - 1);
    }
  }

  lemma Regroup(a: string, b: string, c: string)
    ensures a + (b + c) == a + b + c
  {
  }

  /** What was echoed so far, then the rest of the stretch. */
  function Resumed(echoed: string, rest: Stretch): Stretch {
    rest.(echo := echoed + rest.echo)
  }

  lemma ResumedTwice(a: string, b: string, rest: Stretch)
    ensures Resumed(a, Resumed(b, rest)) == Resumed(a + b, rest)
  {
    Regroup(a, b, rest.echo);
  }

  class Console {
    const history: seq<string>
    const prompt: string
    const maxInputBytes: int
    var output: string
    var inBytes: nat
    var exitFlag: bool

    constructor (history: seq<string>, prompt: string, maxInputBytes: int)
      ensures this.history == history && this.prompt == prompt && this.maxInputBytes == maxInputBytes
      ensures output == "" && inBytes == 0 && !exitFlag
    {
      this.history, this.prompt, this.maxInputBytes := history, prompt, maxInputBytes;
      output, inBytes, exitFlag := "", 0, false;
    }

    /** Reads one line, echoing as it goes and recording how it was typed. `input`
        is what successive reads of the connection return before it fails. Bytes
        after the end of the line in the same read are discarded. */
    method ReadLine(input: seq<Arrival>) returns (line: string, deltas: seq<int>, bulk: bool, outcome: Outcome)
      modifies this
      ensures var s := ReadFrom(Editor("", |history|), history, prompt, old(inBytes), maxInputBytes, input);
              && output == old(output) + s.echo && inBytes == s.inBytes
              && deltas == s.deltas && bulk == s.bulk && outcome == s.outcome
              && line == (if s.outcome.Logout? then "" else s.editor.buf)
              && exitFlag == (old(exitFlag) || s.outcome.Logout?)
    {
      hide EditChunk, ReadFrom, CountTyped, Delta;
      var ed := Editor("", |history|);
      ghost var whole := ReadFrom(ed, history, prompt, inBytes, maxInputBytes, input);
      ghost var echoed := "";
      deltas, bulk := [], false;
      BeforeNothing(whole);
      var j := 0;
      assert input[0..] == input;
      while j < |input|
        invariant j <= |input| && ed.histPos <= |history|
        invariant output == old(output) + echoed && exitFlag == old(exitFlag)
        invariant whole == Before(echoed, deltas, bulk, ReadFrom(ed, history, prompt, inBytes, maxInputBytes, input[j..]))
      {
        var chunk, gap := input[j].bytes, Delta(input[j].gap);
        ReadNext(ed, history, prompt, inBytes, maxInputBytes, input, j);
        j := j + 1;
        if |chunk| == 0 {
          continue;
        }
        ghost var earlier, pasted := deltas, bulk;
        deltas := deltas + gap;
        inBytes := inBytes + |chunk|;
        if inBytes > maxInputBytes {
          assert echoed + "" == echoed;
          return ed.buf, deltas, bulk, LimitExceeded;
        }
        var typed := CountLoop(chunk);
        bulk := bulk || typed > 2;
        ghost var r := EditChunk(ed, history, prompt, chunk, 0);
        var ending;
        ed, ending := EditLoop(ed, chunk);
        Regroup(old(output), echoed, r.echo);
        if ending == LineDone {
          return ed.buf, deltas, bulk, GotLine;
        }
        if ending == LoggedOut {
          exitFlag := true;
          return "", deltas, bulk, Logout;
        }
        BeforeTwice(echoed, earlier, pasted, r.echo, gap, typed > 2,
                    ReadFrom(ed, history, prompt, inBytes, maxInputBytes, input[j..]));
        echoed := echoed + r.echo;
      }
      assert input[j..] == [];
      ReadEnd(ed, history, prompt, inBytes, maxInputBytes);
      assert echoed + "" == echoed && deltas + [] == deltas;
      return ed.buf, deltas, bulk, InputClosed;
    }

    /** How many bytes of a read a user would have typed. */
    method CountLoop(chunk: seq<Byte>) returns (printable: nat)
      ensures printable == CountTyped(chunk)
    {
      printable := 0;
      for i := 0 to |chunk|
        invariant printable == CountTyped(chunk[..i])
      {
        assert chunk[..i + 1][..i] == chunk[..i];
        if chunk[i] >= 0x20 && chunk[i] != 0x7F {
          printable := printable + 1;
        }
      }
      assert chunk[..|chunk|] == chunk;
    }

    /** The loop over the bytes of one read. */
    method EditLoop(start: Editor, chunk: seq<Byte>) returns (ed: Editor, ending: Ending)
      requires start.histPos <= |history|
      modifies this`output
      ensures var r := EditChunk(start, history, prompt, chunk, 0);
              ed == r.editor && ending == r.ending && output == old(output) + r.echo
    {
      hide Press, EditChunk;
      var i := 0;
      ed := start;
      ghost var echoed := "";
      assert old(output) + "" == old(output);
      ResumeNothing(EditChunk(start, history, prompt, chunk, 0));
      while i < |chunk|
        invariant i <= |chunk| && ed.histPos <= |history| && output == old(output) + echoed
        invariant EditChunk(start, history, prompt, chunk, 0) == Resumed(echoed, EditChunk(ed, history, prompt, chunk, i))
        decreases |chunk| - i
      {
        EditNext(ed, history, prompt, chunk, i);
        ghost var k := Press(ed, history, prompt, chunk, i);
        var taken;
        ed, taken, ending := HandleKey(ed, chunk, i);
        Regroup(old(output), echoed, k.echo);
        if ending != Typing {
          return;
        }
        ResumedTwice(echoed, k.echo, EditChunk(ed, history, prompt, chunk, i + taken));
        echoed := echoed + k.echo;
        i := i + taken;
      }
      EditNext(ed, history, prompt, chunk, i);
      assert echoed + "" == echoed;
      ending := Typing;
    }

    /** The switch over one key. */
    method HandleKey(ed: Editor, chunk: seq<Byte>, i: nat) returns (now: Editor, taken: nat, ending: Ending)
      requires i < |chunk| && ed.histPos <= |history|
      modifies this`output
      ensures var k := Press(ed, history, prompt, chunk, i);
              now == k.editor && taken == k.taken && ending == k.ending && output == old(output) + k.echo
    {
      hide Erases;
      var buf, histPos := ed.buf, ed.histPos;
      taken, ending := 1, Typing;
      var b := chunk[i];
      if b == '\r' as int || b == '\n' as int {
        output := output + "\r\n";
        ending := LineDone;
      } else if b == 0x03 {
        output := output + "^C\r\n";
        buf := "";
        Regroup(old(output), "^C\r\n", prompt);
        output := output + prompt;
      } else if b == 0x04 {
        if |buf| == 0 {
          output := output + "logout\r\n";
          ending := LoggedOut;
        }
      } else if b == 0x7F || b == 0x08 {
        if |buf| > 0 {
          buf := buf[..|buf| - 1];
          output := output + ERASE;
        }
      } else if b == 0x15 {
        EraseAll(|buf|);
        buf := "";
      } else if b == 0x1B {
        if i + 2 < |chunk| && chunk[i + 1] == '[' as int {
          if chunk[i + 2] == 'A' as int {
            if histPos > 0 {
              histPos := histPos - 1;
              buf := ReplaceLine(buf, history[histPos]);
            }
          } else if chunk[i + 2] == 'B' as int {
            if histPos < |history| - 1 {
              histPos := histPos + 1;
              buf := ReplaceLine(buf, history[histPos]);
            } else {
              histPos := |history|;
              buf := ReplaceLine(buf, "");
            }
          }
          taken := 3;
        }
      } else if b >= 0x20 {
        buf := buf + [b as char];
        output := output + [b as char];
      }
      now := Editor(buf, histPos);
      assert old(output) + "" == old(output);
    }

    method EraseAll(n: nat)
      modifies this`output
      ensures output == old(output) + Erases(n)
    {
      assert old(output) + "" == old(output);
      for i := 0 to n
        invariant output == old(output) + Erases(i)
      {
        ErasesSnoc(i);
        Regroup(old(output), Erases(i), ERASE);
        output := output + ERASE;
      }
    }

    /** `replaceLine`: erases the line and types the next one. */
    method ReplaceLine(buf: string, next: string) returns (now: string)
      modifies this`output
      ensures now == next && output == old(output) + (Erases(|buf|) + next)
    {
      hide Erases;
      EraseAll(|buf|);
      Regroup(old(output), Erases(|buf|), next);
      output := output + next;
      return next;
    }
  }

  lemma ResumeNothing(rest: Stretch)
    ensures Resumed("", rest) == rest
  {
    assert "" + rest.echo == rest.echo;
  }

  /** While typing goes on, a stretch of editing keeps the screen in step. */
  lemma {:induction false} ChunkKeepsScreen(s: Screen, ed: Editor, history: seq<string>, prompt: string, text: string, chunk: seq<Byte>, i: nat)
    requires i <= |chunk| && ed.histPos <= |history| && HistoryPrintable(history) && PromptShows(prompt, text)
    requires Shows(s, text + ed.buf) && Printable(ed.buf)
    ensures var r := EditChunk(ed, history, prompt, chunk, i);
            Printable(r.editor.buf) && (r.ending.Typing? ==> Shows(Replay(s, r.echo), text + r.editor.buf))
    decreases |chunk| - i
  {
    hide Press, Shows, Printable, Show;
    if i < |chunk| {
      var k := Press(ed, history, prompt, chunk, i);
      PressKeepsScreen(s, ed, history, prompt, text, chunk, i);
      if k.ending == Typing {
        var rest := EditChunk(k.editor, history, prompt, chunk, i + k.taken);
        ChunkKeepsScreen(Replay(s, k.echo), k.editor, history, prompt, text, chunk, i + k.taken);
        ReplayConcat(s, k.echo, rest.echo);
      }
    }
  }

  lemma {:induction false} ReadKeepsScreen(
    s: Screen, ed: Editor, history: seq<string>, prompt: string, text: string, inBytes: nat, limit: int, input: seq<Arrival>)
    requires ed.histPos <= |history| && HistoryPrintable(history) && PromptShows(prompt, text)
    requires Shows(s, text + ed.buf) && Printable(ed.buf)
    ensures var r := ReadFrom(ed, history, prompt, inBytes, limit, input);
            Printable(r.editor.buf)
            && (r.outcome.InputClosed? || r.outcome.LimitExceeded? ==> Shows(Replay(s, r.echo), text + r.editor.buf))
    decreases |input|
  {
    hide EditChunk, Shows, Printable, Show;
    if input != [] {
      var bytes := input[0].bytes;
      if bytes == [] {
        ReadKeepsScreen(s, ed, history, prompt, text, inBytes, limit, input[1..]);
      } else if inBytes + |bytes| <= limit {
        var r := EditChunk(ed, history, prompt, bytes, 0);
        ChunkKeepsScreen(s, ed, history, prompt, text, bytes, 0);
        if r.ending == Typing {
          ReadKeepsScreen(Replay(s, r.echo), r.editor, history, prompt, text, inBytes + |bytes|, limit, input[1..]);
          ReplayConcat(s, r.echo, ReadFrom(r.editor, history, prompt, inBytes + |bytes|, limit, input[1..]).echo);
        }
      }
    }
  }

  /** The screen equals the buffer. After any input that has not yet ended the
      line, a terminal that printed the prompt and replayed the echo shows what
      the prompt alone shows, never erased, followed by exactly the line being
      edited; and the line handed on is printable, so the history stays printable
      too. The one demand on the prompt is this very statement before any key is
      pressed. */
  lemma ScreenEqualsBuffer(history: seq<string>, prompt: string, text: string, inBytes: nat, limit: int, input: seq<Arrival>)
    requires HistoryPrintable(history) && PromptShows(prompt, text)
    ensures var r := ReadFrom(Editor("", |history|), history, prompt, inBytes, limit, input);
            && (r.outcome.InputClosed? || r.outcome.LimitExceeded? ==>
                  Shows(Replay(FRESH, prompt + r.echo), text + r.editor.buf))
            && HistoryPrintable(history + [r.editor.buf])
  {
    hide ReadFrom, Show;
    var r := ReadFrom(Editor("", |history|), history, prompt, inBytes, limit, input);
    assert text + "" == text;
    ReadKeepsScreen(Replay(FRESH, prompt), Editor("", |history|), history, prompt, text, inBytes, limit, input);
    ReplayConcat(FRESH, prompt, r.echo);
  }
}
