/** How loaders smuggle a binary through a text channel: one `echo -ne` of hex
    escapes per chunk, redirected to a file. Shows that the shell rebuilds it. */
module Payload {
  import opened Basics
  import opened Paths
  import opened Trees
  import opened TreeEdits
  import opened Lookups
  import opened Vfs
  import opened StoredBytes
  import opened VfsLaws
  import opened Tokenizer
  import opened Lexing
  import opened ShellParser
  import opened Dispatch
  import opened EchoCommand
  import opened Shells

  // ----- The line parses to one command with one redirection.

  function Arrow(append: bool): string {
    if append then ">>" else ">"
  }

  /** `echo -ne '\x..' > f`, or `>>` to append. */
  function Line(append: bool, f: string, chunk: seq<Byte>): string {
    "echo" + (" " + ("-ne" + (" " + ("'" + Hex(chunk) + "'" + (" " + (Arrow(append) + " " + (f + "")))))))
  }

  lemma TokensOfLine(append: bool, f: string, chunk: seq<Byte>)
    requires BareWord(f)
    ensures Tokens(Line(append, f, chunk)) ==
      [Token("echo", false), Token("-ne", false), Token(Hex(chunk), true), Op(Arrow(append)), Token(f, false)]
  {
    hide Scan, Hex, IsSpace, BareWord;
    var op := Arrow(append);
    var end := op + " " + (f + "");
    var quoted := "'" + Hex(chunk) + "'" + (" " + end);
    PlainBeginnings();
    ScanBare("echo", " " + ("-ne" + (" " + quoted)));
    ScanSpace("-ne" + (" " + quoted), Some(Token("echo", false)));
    ScanBare("-ne", " " + quoted);
    ScanSpace(quoted, Some(Token("-ne", false)));
    HexSafe(chunk);
    ScanQuoted(Hex(chunk), " " + end, None);
    assert "" + Hex(chunk) == Hex(chunk);
    ScanSpace(end, Some(Token(Hex(chunk), true)));
    ScanOperator(op, f + "");
    ScanBare(f, "");
    ScanEnd(Some(Token(f, false)));
  }

  lemma PlainBeginnings()
    ensures BareWord("echo") && BareWord("-ne")
  {
  }

  /** The command of a line: the escaped chunk printed into the file. */
  function Command(append: bool, f: string, chunk: seq<Byte>): Stage {
    Stage(["echo", "-ne", Hex(chunk)], if append then "" else f, if append then f else "", "")
  }

  lemma FeedLine(append: bool, f: string, h: string)
    ensures ParseTokens([Token("echo", false), Token("-ne", false), Token(h, true), Op(Arrow(append)), Token(f, false)]) ==
      [Pipeline([Stage(["echo", "-ne", h], if append then "" else f, if append then f else "", "")], "", false)]
  {
    hide Feed, Step;
    var ts := [Token("echo", false), Token("-ne", false), Token(h, true), Op(Arrow(append)), Token(f, false)];
    FeedFive(START, ts);
    StepWord(START, Token("echo", false));
    var s1 := AddWord(START, "echo");
    StepWord(s1, Token("-ne", false));
    var s2 := AddWord(s1, "-ne");
    StepWord(s2, Token(h, true));
    var s3 := AddWord(s2, h);
    assert s3.stage.argv == ["echo", "-ne", h];
    StepArrow(s3, append, f);
    var stage := Stage(["echo", "-ne", h], if append then "" else f, if append then f else "", "");
    assert Feed(START, ts) == START.(stage := stage);
    assert Kept(stage) && [] + [stage] == [stage];
    assert [] + [Pipeline([stage], "", false)] == [Pipeline([stage], "", false)];
  }

  lemma FeedFive(st: Progress, ts: seq<Token>)
    requires |ts| == 5
    ensures Feed(st, ts) == Step(Step(Step(Step(Step(st, ts[0]), ts[1]), ts[2]), ts[3]), ts[4])
  {
    hide Step, Feed;
    assert ts == [ts[0]] + ([ts[1]] + ([ts[2]] + ([ts[3]] + [ts[4]])));
    FeedFirst(st, ts[0], [ts[1]] + ([ts[2]] + ([ts[3]] + [ts[4]])));
    var s1 := Step(st, ts[0]);
    FeedFirst(s1, ts[1], [ts[2]] + ([ts[3]] + [ts[4]]));
    var s2 := Step(s1, ts[1]);
    FeedFirst(s2, ts[2], [ts[3]] + [ts[4]]);
    var s3 := Step(s2, ts[2]);
    FeedFirst(s3, ts[3], [ts[4]]);
    FeedOne(Step(s3, ts[3]), ts[4]);
  }

  lemma StepWord(st: Progress, t: Token)
    requires st.pending == "" && (t.quoted || t.text == "echo" || t.text == "-ne")
    ensures Step(st, t) == AddWord(st, t.text)
  {
  }

  lemma StepArrow(st: Progress, append: bool, f: string)
    requires st.pending == ""
    ensures Step(Step(st, Op(Arrow(append))), Token(f, false)) ==
      st.(stage := if append then st.stage.(append := f) else st.stage.(out := f))
  {
  }

  lemma ParsedLine(append: bool, f: string, chunk: seq<Byte>)
    requires BareWord(f)
    ensures Parsed(Line(append, f, chunk)) == [Pipeline([Command(append, f, chunk)], "", false)]
  {
    hide Hex, Scan, Line, ParseTokens;
    TokensOfLine(append, f, chunk);
    FeedLine(append, f, Hex(chunk));
  }

  // ----- The command comes down to `echo`.

  lemma EncodedThree(a: string, b: string, c: string)
    ensures EncodedAll([a, b, c]) == [Encoded(a), Encoded(b), Encoded(c)]
  {
    hide Encoded;
    assert [a, b, c][1..] == [b, c] && [b, c][1..] == [c] && [c][1..] == [];
    assert EncodedAll([c]) == [Encoded(c)];
    assert EncodedAll([b, c]) == [Encoded(b), Encoded(c)];
  }

  lemma EncodedSome(f: string)
    requires f != ""
    ensures Encoded(f) != ""
  {
    assert |Encoded(f)| >= |Utf8(f[0])|;
  }

  lemma EncodedCommand(append: bool, f: string, chunk: seq<Byte>)
    requires f != ""
    ensures EncodedStage(Command(append, f, chunk)) == Command(append, Encoded(f), chunk) && Encoded(f) != ""
  {
    hide Hex, Encoded, EncodedAll;
    HexSafe(chunk);
    EncodedAscii(Hex(chunk));
    EncodedAscii("echo");
    EncodedAscii("-ne");
    EncodedAscii("");
    EncodedThree("echo", "-ne", Hex(chunk));
    EncodedSome(f);
  }

  lemma SettlesAsEcho(h: string, env: Env, who: Who, builtins: set<string>)
    requires "echo" in builtins
    ensures Settled(Call(["echo", "-ne", h], ""), env, who, builtins) == Outcome(env, "", Run("echo", ["-ne", h], ""), 0)
  {
    hide Base, IndexOf, Fields, Sudo, Nohup, Xargs, Busybox;
    BareName("echo");
    var argv := ["echo", "-ne", h];
    assert !Assignment("echo");
    assert argv[1..] == ["-ne", h];
  }

  // ----- One line, then many.

  /** A file with these bytes is at `parts`, and no link on the way. */
  ghost predicate Holds(t: Tree, parts: seq<string>, content: seq<Byte>)
    requires parts != []
  {
    EntryAt(t, parts) == Some(NewFile(parts[|parts| - 1], 420, content)) && LinkFree(t, parts)
  }

  /** Nothing changed that is not at or below `parts`. */
  ghost predicate OnlyAt(t: Tree, u: Tree, parts: seq<string>) {
    forall q :: !(parts <= q) ==> EntryAt(u, q) == EntryAt(t, q)
  }

  /** The session after one such line. */
  function Entered(s: Session, append: bool, f: string, chunk: seq<Byte>): Session
    requires Closed(s.disk.tree)
  {
    var ran := s.(exitCode := 0);
    if append then Added(ran, Encoded(f), FromBytes(chunk)) else Saved(ran, Encoded(f), FromBytes(chunk))
  }

  lemma CommandRun(s: Session, append: bool, f: string, chunk: seq<Byte>, builtins: set<string>, others: seq<Effect>)
    requires Steady(s.disk) && "echo" in builtins && f != "" && |others| == 1 && SteadyEffects(others)
    ensures var stages := EncodedStages([Command(append, f, chunk)]);
            PipelineRun(s, stages, |stages|, builtins, others).0 == Entered(s, append, f, chunk)
  {
    hide Hex, Settled, Echoed, Encoded, FromBytes, Saved, Added, EncodedStage;
    EncodedCommand(append, f, chunk);
    var stages := EncodedStages([Command(append, f, chunk)]);
    assert |stages| == 1 && stages[0] == Command(append, Encoded(f), chunk);
    SettlesAsEcho(Hex(chunk), s.env, Identity(s), builtins);
    EchoHex(chunk, s.env, s.exitCode);
    assert "" + FromBytes(chunk) == FromBytes(chunk);
    OneStage(s, stages, builtins, others);
  }

  lemma OneStage(s: Session, stages: seq<Stage>, builtins: set<string>, others: seq<Effect>)
    requires Steady(s.disk) && |stages| == 1 && stages[0].argv != [] && |others| == 1 && SteadyEffects(others)
    ensures SteadyEffect(others[0])
    ensures PipelineRun(s, stages, 1, builtins, others) == StageRun(s, stages[0], "", true, builtins, others[0])
  {
    hide StageRun;
  }

  /** A line of one pipeline runs just that. */
  lemma OneLine(s: Session, ps: seq<Pipeline>, k: nat, builtins: set<string>, lists: seq<seq<Effect>>)
    requires Steady(s.disk) && |ps| == 1 && Enough(ps, k, lists) && RunsFirst(s, ps, k, builtins, lists)
    ensures k == 1 && |lists[0]| == |ps[0].stages| && SteadyEffects(lists[0])
    ensures var stages := EncodedStages(ps[0].stages);
            LineRun(s, ps, k, builtins, lists).0 == PipelineRun(s, stages, |stages|, builtins, lists[0]).0
  {
    hide PipelineRun, EncodedStages;
  }

  /** Runs one line; what it does is what its one command does. */
  method Enter(sh: Shell, append: bool, f: string, chunk: seq<Byte>)
    requires sh.fs.Valid() && "echo" in sh.builtins && BareWord(f)
    modifies sh, sh.fs
    ensures sh.Sound() && sh.View() == Entered(old(sh.View()), append, f, chunk)
  {
    hide Parsed, Command, Encoded, EncodedStages, IsTree, AllBytes, LineRun, PipelineRun, RunsFirst, Entered, Line, BareWord;
    ghost var s := sh.View();
    assert SteadyEffect(sh.Here());
    ParsedLine(append, f, chunk);
    NotEmptyWord(f);
    ghost var codes, lists;
    codes, lists := sh.ExecLine(Line(append, f, chunk));
    OneLine(s, Parsed(Line(append, f, chunk)), |codes|, sh.builtins, lists);
    CommandRun(s, append, f, chunk, sh.builtins, lists[0]);
  }

  lemma NotEmptyWord(f: string)
    requires BareWord(f)
    ensures f != ""
  {
  }

  lemma AfterSave(t: Tree, u: Tree, parts: seq<string>, place: seq<string>, content: seq<Byte>)
    requires IsTree(t) && IsTree(u) && AllPlain(parts) && parts != [] && LinkFree(t, parts[..|parts| - 1])
    requires IsPlace(t, Render(parts), place) && Planted(t, u, place, NewFile(Base(Render(parts)), 420, content))
    ensures Holds(u, parts, content) && OnlyAt(t, u, parts)
  {
    hide Render, Lookup, Dir, Base, IsTree, At, EntryAt;
    PlaceOf(t, parts, place);
    LinkFreeAfterPlant(t, u, parts, NewFile(Base(Render(parts)), 420, content));
  }

  lemma AfterAdd(t: Tree, u: Tree, parts: seq<string>, place: seq<string>, content: seq<Byte>, chunk: seq<Byte>)
    requires IsTree(t) && IsTree(u) && AllPlain(parts) && parts != [] && Holds(t, parts, content)
    requires At(t, place) == At(t, parts)
    requires Retouched(t, u, place, Extended(EntryAt(t, parts).value, chunk))
    ensures Holds(u, parts, content + chunk) && OnlyAt(t, u, parts)
  {
    hide Walk;
    assert place == parts;
    forall i | 0 <= i <= |parts| && EntryAt(u, parts[..i]).Some?
      ensures EntryAt(u, parts[..i]).value.kind != Symlink
    {
      assert parts[..i] == parts <==> i == |parts|;
    }
  }

  /** Where such a file is, looking it up finds it. */
  lemma HeldIsFound(t: Tree, parts: seq<string>, content: seq<Byte>)
    requires IsTree(t) && AllPlain(parts) && parts != [] && Holds(t, parts, content)
    ensures var found := Lookup(t, Render(parts), true, 0);
            found.Found? && At(t, parts) == Some(found.id) && EntryAt(t, parts) == Some(t.nodes[found.id].entry)
  {
    hide Walk, Render, Lookup;
    LinkFreeLookup(t, parts, true);
    PlainWalkIsWalk(t, t.root, parts);
  }

  /** The first line replaces whatever was there. */
  method DropFirst(sh: Shell, f: string, chunk: seq<Byte>, ghost parts: seq<string>)
    requires sh.fs.Valid() && "echo" in sh.builtins && BareWord(f)
    requires Clean(sh.cwd, Encoded(f)) == Render(parts) && AllPlain(parts) && parts != []
    requires LinkFree(sh.fs.tree, parts[..|parts| - 1])
    requires WriteRefused(sh.fs.tree, sh.fs.written, Render(parts), |chunk|).None?
    modifies sh, sh.fs
    ensures sh.Sound() && sh.cwd == old(sh.cwd) && sh.exitCode == 0 && sh.fs.written == old(sh.fs.written) + |chunk|
    ensures Holds(sh.fs.tree, parts, chunk) && OnlyAt(old(sh.fs.tree), sh.fs.tree, parts)
    ensures sh.uploads == old(sh.uploads) + if chunk == [] then [] else [Upload(Render(parts), chunk, Encoded(f))]
  {
    hide Encoded, AllBytes, FromBytes, Bytes, Clean, WriteRefused, IsPlace, Planted, Lookup, At, Base, Dir, Link, Holds, OnlyAt,
      Render, BareWord, OnePathEach, NamedByKey, LinkFree;
    ghost var d := sh.fs.View();
    assert Bytes(FromBytes(chunk)) == chunk && |FromBytes(chunk)| == |chunk|;
    ghost var place := WritePlants(d, Render(parts), chunk, 420);
    AfterSave(d.tree, AfterWrite(d, Render(parts), chunk, 420).tree, parts, place, chunk);
    Enter(sh, false, f, chunk);
  }

  /** Each further line adds to what is there. */
  method DropNext(sh: Shell, f: string, chunk: seq<Byte>, ghost parts: seq<string>, ghost content: seq<Byte>)
    requires sh.fs.Valid() && "echo" in sh.builtins && BareWord(f)
    requires Clean(sh.cwd, Encoded(f)) == Render(parts) && AllPlain(parts) && parts != []
    requires Holds(sh.fs.tree, parts, content) && sh.fs.written + |chunk| <= MAX_WRITE_BYTES
    modifies sh, sh.fs
    ensures sh.Sound() && sh.cwd == old(sh.cwd) && sh.exitCode == 0 && sh.fs.written == old(sh.fs.written) + |chunk|
    ensures Holds(sh.fs.tree, parts, content + chunk) && OnlyAt(old(sh.fs.tree), sh.fs.tree, parts)
    ensures sh.uploads == old(sh.uploads)
  {
    hide Encoded, AllBytes, FromBytes, Bytes, Clean, Retouched, Retouch, Lookup, At, Base, OnlyAt, Render, BareWord, LinkFree,
      OnePathEach, NamedByKey, AfterWrite, EntryAt, Read;
    ghost var d := sh.fs.View();
    assert Bytes(FromBytes(chunk)) == chunk && |FromBytes(chunk)| == |chunk|;
    HeldIsFound(d.tree, parts, content);
    ghost var place := AppendRetouches(d, Render(parts), chunk);
    AfterAdd(d.tree, AfterAppend(d, Render(parts), chunk).tree, parts, place, content, chunk);
    Enter(sh, true, f, chunk);
  }

  function Concat(chunks: seq<seq<Byte>>): seq<Byte> {
    if chunks == [] then [] else Concat(chunks[..|chunks| - 1]) + chunks[|chunks| - 1]
  }

  lemma {:induction false} ConcatMonotone(chunks: seq<seq<Byte>>, i: nat)
    requires i <= |chunks|
    ensures |Concat(chunks[..i])| <= |Concat(chunks)|
    decreases |chunks|
  {
    if i == |chunks| {
      assert chunks[..i] == chunks;
    } else {
      var n := |chunks| - 1;
      assert chunks[..n][..i] == chunks[..i];
      ConcatMonotone(chunks[..n], i);
    }
  }

  /** A dropped payload is rebuilt exactly. However a byte string is cut into
      chunks, running `echo -ne '..' > f` and then `echo -ne '..' >> f` for each
      further chunk leaves the file reading as the whole string and no other path
      changed, provided the whole string could have been written at once. The one
      upload reported is the first chunk. */
  method Drop(sh: Shell, f: string, chunks: seq<seq<Byte>>, ghost parts: seq<string>)
    requires sh.fs.Valid() && "echo" in sh.builtins && BareWord(f) && chunks != []
    requires Clean(sh.cwd, Encoded(f)) == Render(parts) && AllPlain(parts) && parts != []
    requires LinkFree(sh.fs.tree, parts[..|parts| - 1])
    requires WriteRefused(sh.fs.tree, sh.fs.written, Render(parts), |Concat(chunks)|).None?
    modifies sh, sh.fs
    ensures sh.Sound() && sh.exitCode == 0 && sh.fs.written == old(sh.fs.written) + |Concat(chunks)|
    ensures forall computed :: Read(sh.fs.tree, Render(parts), computed) == Data(Concat(chunks))
    ensures OnlyAt(old(sh.fs.tree), sh.fs.tree, parts)
    ensures sh.uploads == old(sh.uploads) + if chunks[0] == [] then [] else [Upload(Render(parts), chunks[0], Encoded(f))]
  {
    hide Encoded, IsTree, AllBytes, Clean, Lookup, At, Base, Render, BareWord, LinkFree, Holds, OnlyAt, Read, Concat;
    ghost var t, w := sh.fs.tree, sh.fs.written;
    ConcatStart(chunks);
    ConcatMonotone(chunks, 1);
    DropFirst(sh, f, chunks[0], parts);
    for i := 1 to |chunks|
      invariant sh.Sound() && sh.cwd == old(sh.cwd) && sh.exitCode == 0
      invariant sh.fs.written == w + |Concat(chunks[..i])|
      invariant Holds(sh.fs.tree, parts, Concat(chunks[..i])) && OnlyAt(t, sh.fs.tree, parts)
      invariant sh.uploads == old(sh.uploads) + if chunks[0] == [] then [] else [Upload(Render(parts), chunks[0], Encoded(f))]
    {
      ConcatMonotone(chunks, i + 1);
      ConcatNext(chunks, i);
      ghost var mid := sh.fs.tree;
      DropNext(sh, f, chunks[i], parts, Concat(chunks[..i]));
      OnlyAtTwice(t, mid, sh.fs.tree, parts);
    }
    assert chunks[..|chunks|] == chunks;
    HeldReads(sh.fs.tree, parts, Concat(chunks));
  }

  lemma ConcatStart(chunks: seq<seq<Byte>>)
    requires chunks != []
    ensures Concat(chunks[..1]) == chunks[0]
  {
    var one := chunks[..1];
    assert one[..0] == [];
    assert Concat(one) == Concat([]) + chunks[0];
    assert [] + chunks[0] == chunks[0];
  }

  lemma ConcatNext(chunks: seq<seq<Byte>>, i: nat)
    requires i < |chunks|
    ensures Concat(chunks[..i + 1]) == Concat(chunks[..i]) + chunks[i]
  {
    assert chunks[..i + 1][..i] == chunks[..i];
  }

  lemma OnlyAtTwice(t: Tree, u: Tree, v: Tree, parts: seq<string>)
    requires OnlyAt(t, u, parts) && OnlyAt(u, v, parts)
    ensures OnlyAt(t, v, parts)
  {
  }

  lemma HeldReads(t: Tree, parts: seq<string>, content: seq<Byte>)
    requires IsTree(t) && AllPlain(parts) && parts != [] && Holds(t, parts, content)
    ensures forall computed :: Read(t, Render(parts), computed) == Data(content)
  {
    hide Render, Read, LinkFree, EntryAt;
    forall computed ensures Read(t, Render(parts), computed) == Data(content) {
      ReadEntry(t, parts, computed);
    }
  }
}
