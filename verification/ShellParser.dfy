/** Command lines as pipelines (`Parse` in node/internal/shell/parser.go). */
module ShellParser {
  import opened Basics
  import opened Tokenizer

  /** One command of a pipeline with its redirections; "" means none. */
  datatype Stage = Stage(argv: seq<string>, out: string, append: string, input: string)

  datatype Pipeline = Pipeline(stages: seq<Stage>, next: string, background: bool)

  const NO_STAGE: Stage := Stage([], "", "", "")

  /** Pipelines finished, stages of the current one, the current stage, and a
      redirection waiting for its target. */
  datatype Progress = Progress(done: seq<Pipeline>, stages: seq<Stage>, stage: Stage, pending: string)

  const START: Progress := Progress([], [], NO_STAGE, "")

  predicate Kept(s: Stage) {
    s.argv != [] || s.out != "" || s.append != ""
  }

  function FlushStage(st: Progress): Progress {
    st.(stages := if Kept(st.stage) then st.stages + [st.stage] else st.stages, stage := NO_STAGE)
  }

  function FlushPipeline(st: Progress, op: string, background: bool): Progress {
    var s := FlushStage(st);
    s.(done := if s.stages != [] then s.done + [Pipeline(s.stages, op, background)] else s.done, stages := [])
  }

  function Redirect(s: Stage, pending: string, target: string): Stage {
    match pending
    case ">" => s.(out := target)
    case ">>" => s.(append := target)
    case "<" => s.(input := target)
    case _ => s
  }

  function AddWord(st: Progress, word: string): Progress {
    st.(stage := st.stage.(argv := st.stage.argv + [word]))
  }

  function Step(st: Progress, t: Token): Progress {
    if st.pending != "" then st.(stage := Redirect(st.stage, st.pending, t.text), pending := "")
    else if t.quoted then AddWord(st, t.text)
    else match t.text
      case "|" => FlushStage(st)
      case ";" => FlushPipeline(st, ";", false)
      case "\n" => FlushPipeline(st, ";", false)
      case "&&" => FlushPipeline(st, "&&", false)
      case "||" => FlushPipeline(st, "||", false)
      case "&" => FlushPipeline(st, ";", true)
      case ">" => st.(pending := ">")
      case ">>" => st.(pending := ">>")
      case "<" => st.(pending := "<")
      case _ => AddWord(st, t.text)
  }

  function Feed(st: Progress, ts: seq<Token>): Progress
    decreases |ts|
  {
    if ts == [] then st else Feed(Step(st, ts[0]), ts[1..])
  }

  function ParseTokens(ts: seq<Token>): seq<Pipeline> {
    FlushPipeline(Feed(START, ts), "", false).done
  }

  function Parsed(line: string): seq<Pipeline> {
    ParseTokens(Tokens(line))
  }

  /** The loop of `Parse`. */
  method Parse(line: string) returns (pipelines: seq<Pipeline>)
    ensures pipelines == Parsed(line)
  {
    hide Feed, Step, FlushPipeline;
    var tokens := Tokenize(line);
    FeedNothing(START);
    if |tokens| == 0 {
      assert tokens == [];
      NothingParsed();
      return [];
    }
    var stages, stage, pending: string := [], NO_STAGE, "";
    pipelines := [];
    var i := 0;
    assert tokens[0..] == tokens;
    while i < |tokens|
      invariant i <= |tokens|
      invariant Feed(START, tokens) == Feed(Progress(pipelines, stages, stage, pending), tokens[i..])
    {
      assert tokens[i..] == [tokens[i]] + tokens[i + 1..];
      FeedFirst(Progress(pipelines, stages, stage, pending), tokens[i], tokens[i + 1..]);
      pipelines, stages, stage, pending := TakeToken(pipelines, stages, stage, pending, tokens[i]);
      i := i + 1;
    }
    assert tokens[i..] == [];
    FeedNothing(Progress(pipelines, stages, stage, pending));
    pipelines, stages, stage := PipelineFlushed(pipelines, stages, stage, pending, "", false);
  }

  /** One turn of the loop. */
  method TakeToken(done: seq<Pipeline>, open: seq<Stage>, current: Stage, waiting: string, t: Token)
    returns (pipelines: seq<Pipeline>, stages: seq<Stage>, stage: Stage, pending: string)
    ensures Progress(pipelines, stages, stage, pending) == Step(Progress(done, open, current, waiting), t)
  {
    hide Kept, Redirect;
    pipelines, stages, stage, pending := done, open, current, waiting;
    if pending != "" {
      stage := Redirect(stage, pending, t.text);
      pending := "";
      return;
    }
    if !t.quoted {
      if t.text == "|" {
        stages, stage := Flushed(stages, stage);
        return;
      }
      if t.text in [";", "\n", "&&", "||", "&"] {
        var op := if t.text == "&&" || t.text == "||" then t.text else ";";
        pipelines, stages, stage := PipelineFlushed(pipelines, stages, stage, pending, op, t.text == "&");
        return;
      }
      if t.text in [">", ">>", "<"] {
        pending := t.text;
        return;
      }
    }
    stage := stage.(argv := stage.argv + [t.text]);
  }

  lemma NothingParsed()
    ensures ParseTokens([]) == []
  {
  }

  /** The closure `flushStage`. */
  method Flushed(stages: seq<Stage>, stage: Stage) returns (newStages: seq<Stage>, newStage: Stage)
    ensures newStages == (if Kept(stage) then stages + [stage] else stages) && newStage == NO_STAGE
  {
    newStages := stages;
    if |stage.argv| > 0 || stage.out != "" || stage.append != "" {
      newStages := newStages + [stage];
    }
    newStage := NO_STAGE;
  }

  /** The closure `flushPipeline`. */
  method PipelineFlushed(
    done: seq<Pipeline>, open: seq<Stage>, current: Stage, ghost pending: string, op: string, background: bool)
    returns (pipelines: seq<Pipeline>, stages: seq<Stage>, stage: Stage)
    ensures Progress(pipelines, stages, stage, pending) == FlushPipeline(Progress(done, open, current, pending), op, background)
  {
    hide Kept;
    pipelines := done;
    stages, stage := Flushed(open, current);
    if |stages| > 0 {
      pipelines := pipelines + [Pipeline(stages, op, background)];
    }
    stages := [];
  }

  // ----- Normal form.

  predicate NormalPipeline(p: Pipeline) {
    && p.stages != []
    && (forall i :: 0 <= i < |p.stages| ==> Kept(p.stages[i]))
    && p.next in ["", ";", "&&", "||"]
    && (p.background ==> p.next == ";")
  }

  /** Non-empty pipelines of non-empty stages; only the last may end the line
      without an operator. */
  predicate Normal(ps: seq<Pipeline>) {
    && (forall i :: 0 <= i < |ps| ==> NormalPipeline(ps[i]))
    && (forall i :: 0 <= i < |ps| - 1 ==> ps[i].next != "")
  }

  ghost predicate NormalProgress(st: Progress) {
    && (forall i :: 0 <= i < |st.done| ==> NormalPipeline(st.done[i]) && st.done[i].next != "")
    && (forall i :: 0 <= i < |st.stages| ==> Kept(st.stages[i]))
  }

  lemma StepNormal(st: Progress, t: Token)
    requires NormalProgress(st)
    ensures NormalProgress(Step(st, t))
  {
    hide NormalProgress, FlushPipeline;
    FlushNormal(st, ";", false);
    FlushNormal(st, ";", true);
    FlushNormal(st, "&&", false);
    FlushNormal(st, "||", false);
    if Step(st, t).done == st.done && Step(st, t).stages == st.stages {
      OnlyTables(st, Step(st, t));
    }
  }

  lemma FlushNormal(st: Progress, op: string, background: bool)
    requires NormalProgress(st) && op in [";", "&&", "||"] && (background ==> op == ";")
    ensures NormalProgress(FlushStage(st)) && NormalProgress(FlushPipeline(st, op, background))
  {
  }

  lemma OnlyTables(st: Progress, now: Progress)
    requires NormalProgress(st) && now.done == st.done && now.stages == st.stages
    ensures NormalProgress(now)
  {
  }

  lemma {:induction false} FeedNormal(st: Progress, ts: seq<Token>)
    requires NormalProgress(st)
    ensures NormalProgress(Feed(st, ts))
    decreases |ts|
  {
    if ts != [] {
      StepNormal(st, ts[0]);
      FeedNormal(Step(st, ts[0]), ts[1..]);
    }
  }

  /** Every line parses to a normal form. */
  lemma ParsedNormal(line: string)
    ensures Normal(Parsed(line))
  {
    FeedNormal(START, Tokens(line));
  }

  // ----- Printing.

  function Words(argv: seq<string>): seq<Token> {
    if argv == [] then [] else [Token(argv[0], true)] + Words(argv[1..])
  }

  function Redirection(op: string, target: string): seq<Token> {
    if target == "" then [] else [Op(op), Token(target, true)]
  }

  function StageTokens(s: Stage): seq<Token> {
    Words(s.argv) + Redirection(">", s.out) + Redirection(">>", s.append) + Redirection("<", s.input)
  }

  function StagesTokens(ss: seq<Stage>): seq<Token> {
    if ss == [] then [] else if |ss| == 1 then StageTokens(ss[0])
    else StageTokens(ss[0]) + [Op("|")] + StagesTokens(ss[1..])
  }

  function Terminator(p: Pipeline): seq<Token> {
    if p.background then [Op("&")] else if p.next == "" then [] else [Op(p.next)]
  }

  function AllTokens(ps: seq<Pipeline>): seq<Token> {
    if ps == [] then [] else StagesTokens(ps[0].stages) + Terminator(ps[0]) + AllTokens(ps[1..])
  }

  /** A command line with every word in single quotes. */
  function Print(ps: seq<Pipeline>): string {
    PrintTokens(AllTokens(ps))
  }

  lemma {:induction false} FeedConcat(st: Progress, a: seq<Token>, b: seq<Token>)
    ensures Feed(st, a + b) == Feed(Feed(st, a), b)
    decreases |a|
  {
    hide Step;
    if a == [] {
      assert a + b == b;
    } else {
      assert (a + b)[1..] == a[1..] + b;
      FeedConcat(Step(st, a[0]), a[1..], b);
    }
  }

  lemma FeedOne(st: Progress, t: Token)
    ensures Feed(st, [t]) == Step(st, t)
  {
    assert [t][1..] == [];
  }

  lemma FeedFirst(st: Progress, t: Token, rest: seq<Token>)
    ensures Feed(st, [t] + rest) == Feed(Step(st, t), rest)
  {
    hide Step;
    assert ([t] + rest)[1..] == rest;
  }

  lemma StepQuoted(st: Progress, word: string)
    requires st.pending == ""
    ensures Step(st, Token(word, true)) == AddWord(st, word)
  {
  }

  lemma {:induction false} FeedWords(st: Progress, argv: seq<string>)
    requires st.pending == ""
    ensures Feed(st, Words(argv)) == st.(stage := st.stage.(argv := st.stage.argv + argv))
    decreases |argv|
  {
    hide Feed, Step;
    if argv == [] {
      FeedNothing(st);
      assert st.stage.argv + [] == st.stage.argv;
    } else {
      var now := AddWord(st, argv[0]);
      FeedFirst(st, Token(argv[0], true), Words(argv[1..]));
      StepQuoted(st, argv[0]);
      FeedWords(now, argv[1..]);
      assert st.stage.argv + [argv[0]] + argv[1..] == st.stage.argv + argv;
    }
  }

  lemma FeedRedirection(st: Progress, op: string, target: string)
    requires st.pending == "" && op in [">", ">>", "<"]
    ensures Feed(st, Redirection(op, target)) == if target == "" then st else st.(stage := Redirect(st.stage, op, target))
  {
    if target != "" {
      var waiting := st.(pending := op);
      assert [Op(op), Token(target, true)] == [Op(op)] + [Token(target, true)];
      FeedConcat(st, [Op(op)], [Token(target, true)]);
      FeedOne(st, Op(op));
      FeedOne(waiting, Token(target, true));
    }
  }

  lemma FeedStage(st: Progress, s: Stage)
    requires st.pending == "" && st.stage == NO_STAGE
    ensures Feed(st, StageTokens(s)) == st.(stage := s)
  {
    hide Feed, Words, Redirection;
    var a, b, c, d := Words(s.argv), Redirection(">", s.out), Redirection(">>", s.append), Redirection("<", s.input);
    FeedConcat(st, a + b + c, d);
    FeedConcat(st, a + b, c);
    FeedConcat(st, a, b);
    FeedWords(st, s.argv);
    assert [] + s.argv == s.argv;
    var s1 := st.(stage := Stage(s.argv, "", "", ""));
    FeedRedirection(s1, ">", s.out);
    var s2 := st.(stage := Stage(s.argv, s.out, "", ""));
    FeedRedirection(s2, ">>", s.append);
    var s3 := st.(stage := Stage(s.argv, s.out, s.append, ""));
    FeedRedirection(s3, "<", s.input);
  }

  lemma {:induction false} FeedStages(st: Progress, ss: seq<Stage>)
    requires st.pending == "" && st.stage == NO_STAGE && ss != []
    requires forall i :: 0 <= i < |ss| ==> Kept(ss[i])
    ensures Feed(st, StagesTokens(ss)) == st.(stages := st.stages + ss[..|ss| - 1], stage := ss[|ss| - 1])
    decreases |ss|
  {
    hide Feed, StageTokens, Kept;
    FeedStage(st, ss[0]);
    if |ss| == 1 {
      assert st.stages + ss[..0] == st.stages;
    } else {
      FeedConcat(st, StageTokens(ss[0]) + [Op("|")], StagesTokens(ss[1..]));
      FeedPiped(st, ss[0]);
      FeedStages(st.(stages := st.stages + [ss[0]]), ss[1..]);
      FrontOf(st.stages, ss);
    }
  }

  lemma FeedPiped(st: Progress, s: Stage)
    requires st.pending == "" && st.stage == NO_STAGE && Kept(s)
    ensures Feed(st, StageTokens(s) + [Op("|")]) == st.(stages := st.stages + [s])
  {
    hide Feed, StageTokens;
    FeedStage(st, s);
    FeedConcat(st, StageTokens(s), [Op("|")]);
    FeedOne(st.(stage := s), Op("|"));
  }

  lemma FrontOf(before: seq<Stage>, ss: seq<Stage>)
    requires |ss| > 1
    ensures before + [ss[0]] + ss[1..][..|ss| - 2] == before + ss[..|ss| - 1]
  {
  }

  /** Feeding a terminated pipeline from a clean state finishes exactly that pipeline. */
  lemma FeedPipeline(done: seq<Pipeline>, p: Pipeline)
    requires NormalPipeline(p) && p.next != ""
    ensures Feed(Progress(done, [], NO_STAGE, ""), StagesTokens(p.stages) + Terminator(p))
         == Progress(done + [p], [], NO_STAGE, "")
  {
    hide Feed, StagesTokens;
    var st := Progress(done, [], NO_STAGE, "");
    var n := |p.stages| - 1;
    FeedConcat(st, StagesTokens(p.stages), Terminator(p));
    FeedStages(st, p.stages);
    var full := st.(stages := p.stages[..n], stage := p.stages[n]);
    assert [] + p.stages[..n] == p.stages[..n];
    assert p.stages[..n] + [p.stages[n]] == p.stages;
    FeedOne(full, Op(if p.background then "&" else p.next));
  }

  lemma {:induction false} FeedAll(done: seq<Pipeline>, ps: seq<Pipeline>)
    requires Normal(ps)
    ensures FlushPipeline(Feed(Progress(done, [], NO_STAGE, ""), AllTokens(ps)), "", false).done == done + ps
    decreases |ps|
  {
    hide Feed, StagesTokens;
    var st := Progress(done, [], NO_STAGE, "");
    if ps == [] {
      FeedNothing(st);
    } else if ps[0].next != "" {
      FeedConcat(st, StagesTokens(ps[0].stages) + Terminator(ps[0]), AllTokens(ps[1..]));
      FeedPipeline(done, ps[0]);
      FeedAll(done + [ps[0]], ps[1..]);
      assert done + [ps[0]] + ps[1..] == done + ps;
    } else {
      var p := ps[0];
      var n := |p.stages| - 1;
      assert ps == [p] && AllTokens(ps) == StagesTokens(p.stages);
      FeedStages(st, p.stages);
      assert [] + p.stages[..n] + [p.stages[n]] == p.stages;
    }
  }

  lemma FeedNothing(st: Progress)
    ensures Feed(st, []) == st
  {
  }

  lemma {:induction false} WordsPrintable(argv: seq<string>)
    ensures Printable(Words(argv))
  {
    if argv != [] {
      WordsPrintable(argv[1..]);
    }
  }

  lemma PrintableConcat(a: seq<Token>, b: seq<Token>)
    requires Printable(a) && Printable(b)
    ensures Printable(a + b)
  {
  }

  lemma RedirectionPrintable(op: string, target: string)
    requires op in [">", ">>", "<"]
    ensures Printable(Redirection(op, target))
  {
  }

  lemma StageTokensPrintable(s: Stage)
    ensures Printable(StageTokens(s))
  {
    hide Printable, Words, Redirection;
    WordsPrintable(s.argv);
    RedirectionPrintable(">", s.out);
    RedirectionPrintable(">>", s.append);
    RedirectionPrintable("<", s.input);
    PrintableConcat(Words(s.argv), Redirection(">", s.out));
    PrintableConcat(Words(s.argv) + Redirection(">", s.out), Redirection(">>", s.append));
    PrintableConcat(Words(s.argv) + Redirection(">", s.out) + Redirection(">>", s.append), Redirection("<", s.input));
  }

  lemma {:induction false} StagesTokensPrintable(ss: seq<Stage>)
    ensures Printable(StagesTokens(ss))
  {
    hide StageTokens;
    if ss != [] {
      StageTokensPrintable(ss[0]);
      if |ss| > 1 {
        StagesTokensPrintable(ss[1..]);
      }
    }
  }

  lemma {:induction false} AllTokensPrintable(ps: seq<Pipeline>)
    requires Normal(ps)
    ensures Printable(AllTokens(ps))
  {
    hide StagesTokens;
    if ps != [] {
      StagesTokensPrintable(ps[0].stages);
      AllTokensPrintable(ps[1..]);
    }
  }

  /** Parsing undoes printing: whatever the words contain, quotes and operator
      characters included, a normal form printed in quotes parses to itself. */
  lemma ParsePrint(ps: seq<Pipeline>)
    requires Normal(ps)
    ensures Parsed(Print(ps)) == ps
  {
    hide Feed, AllTokens;
    AllTokensPrintable(ps);
    ScanPrinted(AllTokens(ps));
    FeedAll([], ps);
    assert [] + ps == ps;
  }

  /** Printing what a line parsed to, and parsing again, changes nothing. */
  lemma ParsePrintParse(line: string)
    ensures Parsed(Print(Parsed(line))) == Parsed(line)
  {
    ParsedNormal(line);
    ParsePrint(Parsed(line));
  }

  // ----- What operators mean, between words.

  /** A token that is a word where one may stand: quoted, or no operator. */
  predicate IsWord(t: Token) {
    t.quoted || t.text !in ["|", ";", "\n", "&&", "||", "&", ">", ">>", "<"]
  }

  predicate AllWords(ts: seq<Token>) {
    forall i :: 0 <= i < |ts| ==> IsWord(ts[i])
  }

  function Texts(ts: seq<Token>): seq<string> {
    seq(|ts|, i requires 0 <= i < |ts| => ts[i].text)
  }

  lemma {:induction false} FeedTokens(st: Progress, ts: seq<Token>)
    requires st.pending == "" && AllWords(ts)
    ensures Feed(st, ts) == st.(stage := st.stage.(argv := st.stage.argv + Texts(ts)))
    decreases |ts|
  {
    if ts == [] {
      assert st.stage.argv + Texts(ts) == st.stage.argv;
    } else {
      assert Step(st, ts[0]) == AddWord(st, ts[0].text);
      FeedTokens(AddWord(st, ts[0].text), ts[1..]);
      assert st.stage.argv + [ts[0].text] + Texts(ts[1..]) == st.stage.argv + Texts(ts);
    }
  }

  /** What one command's words make. */
  function Plain(words: seq<Token>): Stage {
    Stage(Texts(words), "", "", "")
  }

  lemma FeedThree(st: Progress, a: seq<Token>, t: Token, b: seq<Token>)
    ensures Feed(st, a + [t] + b) == Feed(Step(Feed(st, a), t), b)
  {
    hide Feed, Step;
    FeedConcat(st, a + [t], b);
    FeedConcat(st, a, [t]);
    FeedOne(Feed(st, a), t);
  }

  /** Words alone, where a command may begin. */
  lemma FeedCommand(done: seq<Pipeline>, stages: seq<Stage>, a: seq<Token>)
    requires a != [] && AllWords(a)
    ensures Feed(Progress(done, stages, NO_STAGE, ""), a) == Progress(done, stages, Plain(a), "") && Kept(Plain(a))
  {
    hide Feed;
    FeedTokens(Progress(done, stages, NO_STAGE, ""), a);
    assert [] + Texts(a) == Texts(a) && |Texts(a)| > 0;
  }

  /** The end of a line after a command. */
  lemma LineEnds(done: seq<Pipeline>, stages: seq<Stage>, st: Stage)
    requires Kept(st)
    ensures FlushPipeline(Progress(done, stages, st, ""), "", false).done == done + [Pipeline(stages + [st], "", false)]
  {
  }

  /** What an operator makes of a command before it. */
  lemma OperatorStep(st: Stage)
    requires Kept(st)
    ensures var p := Progress([], [], st, "");
            && Step(p, Token("|", false)) == Progress([], [st], NO_STAGE, "")
            && Step(p, Token(";", false)) == Progress([Pipeline([st], ";", false)], [], NO_STAGE, "")
            && Step(p, Token("&&", false)) == Progress([Pipeline([st], "&&", false)], [], NO_STAGE, "")
            && Step(p, Token("||", false)) == Progress([Pipeline([st], "||", false)], [], NO_STAGE, "")
            && Step(p, Token("&", false)) == Progress([Pipeline([st], ";", true)], [], NO_STAGE, "")
  {
    assert [] + [st] == [st];
  }

  /** A pipe makes two stages of one pipeline. */
  lemma PipeSays(a: seq<Token>, b: seq<Token>)
    requires a != [] && b != [] && AllWords(a) && AllWords(b)
    ensures ParseTokens(a + [Token("|", false)] + b) == [Pipeline([Plain(a), Plain(b)], "", false)]
    ensures ParseTokens(a) == [Pipeline([Plain(a)], "", false)]
  {
    hide Feed, AllWords, Step, FlushPipeline, Kept, Plain;
    FeedCommand([], [], a);
    OperatorStep(Plain(a));
    FeedThree(START, a, Token("|", false), b);
    FeedCommand([], [Plain(a)], b);
    LineEnds([], [Plain(a)], Plain(b));
    LineEnds([], [], Plain(a));
    assert [Plain(a)] + [Plain(b)] == [Plain(a), Plain(b)] && [] + [Plain(a)] == [Plain(a)];
  }

  /** The operators of a list make two pipelines, the first with the operator behind it;
      `&` is `;` with the first in the background. */
  lemma ListOperatorsSay(a: seq<Token>, b: seq<Token>)
    requires a != [] && b != [] && AllWords(a) && AllWords(b)
    ensures ParseTokens(a + [Token(";", false)] + b) == [Pipeline([Plain(a)], ";", false), Pipeline([Plain(b)], "", false)]
    ensures ParseTokens(a + [Token("&&", false)] + b) == [Pipeline([Plain(a)], "&&", false), Pipeline([Plain(b)], "", false)]
    ensures ParseTokens(a + [Token("||", false)] + b) == [Pipeline([Plain(a)], "||", false), Pipeline([Plain(b)], "", false)]
    ensures ParseTokens(a + [Token("&", false)] + b) == [Pipeline([Plain(a)], ";", true), Pipeline([Plain(b)], "", false)]
  {
    hide Feed, AllWords, Step, Kept, Plain, ParseTokens;
    FeedCommand([], [], a);
    OperatorStep(Plain(a));
    AfterOperator(a, ";", Pipeline([Plain(a)], ";", false), b);
    AfterOperator(a, "&&", Pipeline([Plain(a)], "&&", false), b);
    AfterOperator(a, "||", Pipeline([Plain(a)], "||", false), b);
    AfterOperator(a, "&", Pipeline([Plain(a)], ";", true), b);
  }

  lemma AfterOperator(a: seq<Token>, op: string, first: Pipeline, b: seq<Token>)
    requires b != [] && AllWords(b)
    requires Step(Feed(START, a), Token(op, false)) == Progress([first], [], NO_STAGE, "")
    ensures ParseTokens(a + [Token(op, false)] + b) == [first, Pipeline([Plain(b)], "", false)]
  {
    hide Feed, AllWords, Step, FlushPipeline, Kept, Plain;
    FeedThree(START, a, Token(op, false), b);
    FeedCommand([first], [], b);
    LineEnds([first], [], Plain(b));
    assert [] + [Plain(b)] == [Plain(b)];
  }

  /** A command with a redirection behind it: `>` names the file written, `>>` the one
      added to, `<` the one read; the target is the next token, whatever it is. */
  lemma RedirectionsSay(a: seq<Token>, target: Token)
    requires a != [] && AllWords(a)
    ensures ParseTokens(a + [Token(">", false)] + [target]) == [Pipeline([Plain(a).(out := target.text)], "", false)]
    ensures ParseTokens(a + [Token(">>", false)] + [target]) == [Pipeline([Plain(a).(append := target.text)], "", false)]
    ensures ParseTokens(a + [Token("<", false)] + [target]) == [Pipeline([Plain(a).(input := target.text)], "", false)]
  {
    hide Feed, AllWords, Step, FlushPipeline, ParseTokens;
    FeedCommand([], [], a);
    RedirectionStep(Plain(a), target);
    AfterRedirection(a, ">", target, Plain(a).(out := target.text));
    AfterRedirection(a, ">>", target, Plain(a).(append := target.text));
    AfterRedirection(a, "<", target, Plain(a).(input := target.text));
  }

  lemma RedirectionStep(st: Stage, target: Token)
    ensures var p := Progress([], [], st, "");
            && Step(Step(p, Token(">", false)), target) == Progress([], [], st.(out := target.text), "")
            && Step(Step(p, Token(">>", false)), target) == Progress([], [], st.(append := target.text), "")
            && Step(Step(p, Token("<", false)), target) == Progress([], [], st.(input := target.text), "")
  {
  }

  lemma AfterRedirection(a: seq<Token>, op: string, target: Token, st: Stage)
    requires Step(Step(Feed(START, a), Token(op, false)), target) == Progress([], [], st, "") && Kept(st)
    ensures ParseTokens(a + [Token(op, false)] + [target]) == [Pipeline([st], "", false)]
  {
    hide Feed, Step, FlushPipeline, Kept;
    FeedThree(START, a, Token(op, false), [target]);
    FeedOne(Step(Feed(START, a), Token(op, false)), target);
    LineEnds([], [], st);
    assert [] + [st] == [st];
  }
}
