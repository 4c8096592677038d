/** What pipelines and lists of pipelines print, in the words of the commands
    themselves (node/internal/shell/shell.go, node/internal/shell/commands.go). */
module Pipelines {
  import opened Basics
  import opened Text
  import opened Paths
  import opened Trees
  import opened Lookups
  import opened Vfs
  import opened ShellParser
  import opened Dispatch
  import opened EchoCommand
  import opened Shells

  /** A word that `echo` and `xargs` take as it is: no blank, no reference, no option. */
  predicate Plainly(w: string) {
    Field(w) && '$' !in w && w[0] != '-'
  }

  ghost predicate AllPlainly(words: seq<string>) {
    forall w :: w in words ==> Plainly(w)
  }

  lemma PlainlyFacts(words: seq<string>)
    requires AllPlainly(words)
    ensures AllFields(words) && NoOptions(words) && (words == [] || !Flag(words[0])) && forall w :: w in words ==> '$' !in w
  {
    forall i | 0 <= i < |words| ensures Field(words[i]) {
      assert words[i] in words;
    }
    if words != [] {
      assert words[0] in words;
    }
  }

  lemma PlainlyConcat(a: seq<string>, b: seq<string>)
    requires AllPlainly(a) && AllPlainly(b)
    ensures AllPlainly(a + b)
  {
    hide Plainly;
    assert forall w :: w in a + b <==> w in a || w in b;
  }

  // ----- The two commands.

  lemma EchoNames()
    ensures CommandName("echo") && CommandName("xargs") && "echo" !in CALLERS
  {
  }

  /** `echo words` answers the words and a newline, whatever it is given to read. */
  lemma EchoEffect(s: Session, words: seq<string>, stdin: string, builtins: set<string>, other: Effect)
    requires Closed(s.disk.tree) && AllPlainly(words) && "echo" in builtins
    ensures Called(s, ["echo"] + words, stdin, builtins, other) == Effect(s, Join(words, ' ') + "\n", 0)
  {
    hide Settled, Echoed, Join, Closed, CommandName, AllPlainly, NotFoundText;
    EchoNames();
    PlainlyFacts(words);
    OthersRun("echo", words, stdin, s.env, Identity(s), builtins);
    EchoPrints([], words, s.env, s.exitCode);
    assert [] + words == words;
    assert "" + (Join(words, ' ') + "\n") == Join(words, ' ') + "\n";
  }

  /** `xargs echo ops` answers its operands and then the fields it reads. */
  lemma XargsEffect(s: Session, ops: seq<string>, stdin: string, builtins: set<string>, other: Effect)
    requires Closed(s.disk.tree) && AllPlainly(ops) && AllPlainly(Fields(stdin)) && "echo" in builtins && "xargs" in builtins
    ensures Called(s, ["xargs", "echo"] + ops, stdin, builtins, other) == Effect(s, Join(ops + Fields(stdin), ' ') + "\n", 0)
  {
    hide Settled, Echoed, Join, Closed, CommandName, AllPlainly, NotFoundText, Fields;
    var words := ops + Fields(stdin);
    EchoNames();
    PlainlyFacts(ops);
    PlainlyConcat(ops, Fields(stdin));
    PlainlyFacts(words);
    EchoNoOption(ops);
    assert ["xargs", "echo"] + ops == ["xargs"] + (["echo"] + ops);
    XargsSays(["echo"] + ops, stdin, s.env, Identity(s), builtins);
    assert ["echo"] + ops + Fields(stdin) == ["echo"] + words;
    OthersRun("echo", words, "", s.env, Identity(s), builtins);
    EchoPrints([], words, s.env, s.exitCode);
    assert [] + words == words;
    assert "" + "" + (Join(words, ' ') + "\n") == Join(words, ' ') + "\n";
  }

  lemma EchoNoOption(ops: seq<string>)
    requires NoOptions(ops)
    ensures NoOptions(["echo"] + ops)
  {
    assert forall w :: w in ["echo"] + ops <==> w == "echo" || w in ops;
  }

  // ----- What is handed on.

  /** What a stage reads as fields, when the one before printed these words. */
  lemma FieldsOfLine(words: seq<string>)
    requires AllPlainly(words)
    ensures Fields(Join(words, ' ') + "\n") == words
  {
    PlainlyFacts(words);
    FieldsJoin(words, "\n");
  }

  /** A pipeline that starts with `echo`, followed by any number of `xargs echo`, with
      the operands of each. None is redirected. */
  ghost predicate EchoChain(stages: seq<Stage>, operands: seq<seq<string>>) {
    && |stages| == |operands| && stages != []
    && forall i :: 0 <= i < |stages| ==>
         && AllPlainly(operands[i])
         && stages[i] == Stage((if i == 0 then ["echo"] else ["xargs", "echo"]) + operands[i], "", "", "")
  }

  /** What the first `k` of them come to: each puts its operands in front. */
  function Gathered(operands: seq<seq<string>>, k: nat): seq<string>
    requires k <= |operands|
  {
    if k == 0 then [] else operands[k - 1] + Gathered(operands, k - 1)
  }

  lemma {:induction false} GatheredPlainly(operands: seq<seq<string>>, k: nat)
    requires k <= |operands| && forall i :: 0 <= i < |operands| ==> AllPlainly(operands[i])
    ensures AllPlainly(Gathered(operands, k))
  {
    hide AllPlainly;
    if k == 0 {
      NothingPlainly();
    } else {
      GatheredPlainly(operands, k - 1);
      PlainlyConcat(operands[k - 1], Gathered(operands, k - 1));
    }
  }

  lemma NothingPlainly()
    ensures AllPlainly([])
  {
  }

  /** One stage of such a pipeline. */
  lemma ChainStage(
    s: Session, stages: seq<Stage>, operands: seq<seq<string>>, k: nat, carry: string, builtins: set<string>, other: Effect)
    requires Steady(s.disk) && EchoChain(stages, operands) && "echo" in builtins && "xargs" in builtins
    requires k < |stages| && SteadyEffect(other)
    requires k > 0 ==> carry == Join(Gathered(operands, k), ' ') + "\n"
    ensures var text := Join(Gathered(operands, k + 1), ' ') + "\n";
            StageRun(s, stages[k], carry, k + 1 == |stages|, builtins, other) ==
              if k + 1 == |stages| then (s.(exitCode := 0, output := s.output + [Text(text)]), "") else (s.(exitCode := 0), text)
  {
    hide Called, Join, Fields, AllPlainly, Steady, Closed, SteadyEffect;
    SteadyClosed(s.disk);
    GatheredPlainly(operands, k);
    if k == 0 {
      EchoEffect(s, operands[0], carry, builtins, other);
      assert Gathered(operands, 1) == operands[0] + [] == operands[0];
    } else {
      FieldsOfLine(Gathered(operands, k));
      XargsEffect(s, operands[k], carry, builtins, other);
    }
  }

  /** Within such a pipeline, each stage reads what the one before printed. */
  lemma {:induction false} ChainHandsOn(
    s: Session, stages: seq<Stage>, operands: seq<seq<string>>, k: nat, builtins: set<string>, others: seq<Effect>)
    requires Steady(s.disk) && EchoChain(stages, operands) && "echo" in builtins && "xargs" in builtins
    requires 0 < k < |stages| && k <= |others| && SteadyEffects(others)
    ensures PipelineRun(s, stages, k, builtins, others) ==
      (s.(exitCode := 0), Join(Gathered(operands, k), ' ') + "\n")
    decreases k
  {
    hide StageRun, PipelineRun, Join, AllPlainly, Gathered, Steady, SteadyEffects, SteadyEffect;
    PipelineNext(s, stages, k - 1, builtins, others);
    NoStageYet(s, stages, builtins, others);
    if k > 1 {
      ChainHandsOn(s, stages, operands, k - 1, builtins, others);
    }
    var (now, carry) := PipelineRun(s, stages, k - 1, builtins, others);
    ChainStage(now, stages, operands, k - 1, carry, builtins, others[k - 1]);
  }

  /** And the whole prints, once and nothing else, all the operands, those of later
      stages first: every stage had before it what the earlier ones printed. */
  lemma ChainPrints(s: Session, stages: seq<Stage>, operands: seq<seq<string>>, builtins: set<string>, others: seq<Effect>)
    requires Steady(s.disk) && EchoChain(stages, operands) && "echo" in builtins && "xargs" in builtins
    requires |others| == |stages| && SteadyEffects(others)
    ensures PipelineRun(s, stages, |stages|, builtins, others).0 ==
      s.(exitCode := 0, output := s.output + [Text(Join(Gathered(operands, |stages|), ' ') + "\n")])
  {
    hide StageRun, PipelineRun, Join, AllPlainly, Gathered, Steady, SteadyEffects, SteadyEffect;
    var k := |stages|;
    PipelineNext(s, stages, k - 1, builtins, others);
    NoStageYet(s, stages, builtins, others);
    if k > 1 {
      ChainHandsOn(s, stages, operands, k - 1, builtins, others);
    }
    var (now, carry) := PipelineRun(s, stages, k - 1, builtins, others);
    ChainStage(now, stages, operands, k - 1, carry, builtins, others[k - 1]);
  }

  lemma SteadyClosed(d: Disk)
    requires Steady(d)
    ensures Closed(d.tree)
  {
  }

  /** `echo words | xargs cmd ops`: the command runs with its operands and then the
      words, and nothing on its input. */
  lemma EchoIntoXargs(
    s: Session, words: seq<string>, cmd: string, ops: seq<string>, stages: seq<Stage>, builtins: set<string>, others: seq<Effect>)
    requires Steady(s.disk) && "echo" in builtins && "xargs" in builtins && CommandName(cmd) && cmd !in CALLERS && cmd in builtins
    requires AllPlainly(words) && NoOptions([cmd] + ops)
    requires stages == [Stage(["echo"] + words, "", "", ""), Stage(["xargs", cmd] + ops, "", "", "")]
    requires |others| == 2 && SteadyEffects(others)
    ensures var (now, carry) := PipelineRun(s, stages, 1, builtins, others);
            Settled(Call(stages[1].argv, carry), now.env, Identity(now), builtins).answer == Run(cmd, ops + words, "")
  {
    hide Called, PipelineRun, Join, Fields, AllPlainly, Steady, Closed, SteadyEffects, SteadyEffect, Settled, CommandName;
    SteadyClosed(s.disk);
    PipelineNext(s, stages, 0, builtins, others);
    NoStageYet(s, stages, builtins, others);
    EchoEffect(s, words, "", builtins, others[0]);
    var carry := Join(words, ' ') + "\n";
    FieldsOfLine(words);
    assert ["xargs", cmd] + ops == ["xargs"] + ([cmd] + ops);
    XargsSays([cmd] + ops, carry, s.env, Identity(s), builtins);
    assert [cmd] + ops + words == [cmd] + (ops + words);
    OthersRun(cmd, ops + words, "", s.env, Identity(s), builtins);
  }

  // ----- Redirections.

  /** A redirected stage hands nothing on: what follows it reads an empty input. */
  lemma RedirectedHandsNothing(
    s: Session, stages: seq<Stage>, k: nat, builtins: set<string>, others: seq<Effect>)
    requires Steady(s.disk) && k < |stages| && k < |others| && SteadyEffects(others)
    requires stages[k].argv != [] && (stages[k].out != "" || stages[k].append != "")
    ensures PipelineRun(s, stages, k + 1, builtins, others).1 == ""
  {
    hide Called, PipelineRun, Saved, Added, Steady, SteadyEffects;
    PipelineNext(s, stages, k, builtins, others);
  }

  /** `echo words > f | xargs echo ops`: the file gets the words, if the write is
      admitted, and the second stage prints its operands alone. */
  lemma RedirectedStarves(
    s: Session, words: seq<string>, f: string, ops: seq<string>, stages: seq<Stage>, builtins: set<string>, others: seq<Effect>)
    requires Steady(s.disk) && "echo" in builtins && "xargs" in builtins && AllPlainly(words) && AllPlainly(ops) && f != ""
    requires stages == [Stage(["echo"] + words, f, "", ""), Stage(["xargs", "echo"] + ops, "", "", "")]
    requires |others| == 2 && SteadyEffects(others)
    ensures var now, text := PipelineRun(s, stages, 2, builtins, others).0, Join(words, ' ') + "\n";
            && now.disk == AfterWrite(s.disk, Clean(s.cwd, f), Bytes(text), 420)
            && now.output != [] && now.output[|now.output| - 1] == Text(Join(ops, ' ') + "\n")
  {
    hide Called, PipelineRun, Join, Fields, AllPlainly, Steady, Closed, SteadyEffects, SteadyEffect, Clean, AfterWrite, WriteRefused,
      Bytes;
    var text := Join(words, ' ') + "\n";
    SteadyClosed(s.disk);
    NoStageYet(s, stages, builtins, others);
    PipelineNext(s, stages, 0, builtins, others);
    PipelineNext(s, stages, 1, builtins, others);
    EchoEffect(s, words, "", builtins, others[0]);
    SavedIs(s.(exitCode := 0), f, text);
    var saved := Saved(s.(exitCode := 0), f, text);
    AfterWriteSteady(s.disk, Clean(s.cwd, f), Bytes(text), 420);
    SteadyClosed(saved.disk);
    NoFields();
    NothingPlainly();
    XargsEffect(saved, ops, "", builtins, others[1]);
    assert ops + [] == ops;
  }

  // ----- Commands there are none of, and lists.

  /** A name without a handler is reported, with exit code 127. */
  lemma UnknownEffect(s: Session, word: string, args: seq<string>, stdin: string, builtins: set<string>, other: Effect)
    requires Closed(s.disk.tree) && CommandName(word) && word !in CALLERS && word !in builtins
    ensures Called(s, [word] + args, stdin, builtins, other) == Effect(s, "bash: " + word + ": command not found\n", 127)
  {
    hide Settled, Echoed, Closed, Assignment;
    NotAssignment(word);
    OthersRun(word, args, stdin, s.env, Identity(s), builtins);
    assert "" + ("bash: " + word + ": command not found\n") == "bash: " + word + ": command not found\n";
  }

  /** One stage that prints this and leaves this exit code, changing nothing else. */
  ghost predicate Prints(st: Stage, s: Session, text: string, code: nat, builtins: set<string>)
    requires Closed(s.disk.tree)
  {
    && st.argv != [] && st.out == "" && st.append == "" && text != ""
    && forall now: Session, other :: now.disk == s.disk && now.env == s.env && now.uid == s.uid && now.user == s.user && now.cwd == s.cwd ==>
         Called(now, st.argv, "", builtins, other) == Effect(now, text, code)
  }

  lemma EchoIsPrints(s: Session, words: seq<string>, builtins: set<string>)
    requires Closed(s.disk.tree) && AllPlainly(words) && "echo" in builtins
    ensures Prints(Stage(["echo"] + words, "", "", ""), s, Join(words, ' ') + "\n", 0, builtins)
  {
    hide Called, Join, AllPlainly, Closed;
    forall now: Session, other | now.disk == s.disk
      ensures Called(now, ["echo"] + words, "", builtins, other) == Effect(now, Join(words, ' ') + "\n", 0)
    {
      EchoEffect(now, words, "", builtins, other);
    }
  }

  lemma UnknownIsPrints(s: Session, word: string, args: seq<string>, builtins: set<string>)
    requires Closed(s.disk.tree) && CommandName(word) && word !in CALLERS && word !in builtins
    ensures Prints(Stage([word] + args, "", "", ""), s, "bash: " + word + ": command not found\n", 127, builtins)
  {
    hide Called, Closed, CommandName;
    forall now: Session, other | now.disk == s.disk
      ensures Called(now, [word] + args, "", builtins, other) == Effect(now, "bash: " + word + ": command not found\n", 127)
    {
      UnknownEffect(now, word, args, "", builtins, other);
    }
  }

  /** Such a stage by itself as a pipeline. */
  lemma OneStagePrints(s: Session, now: Session, st: Stage, text: string, code: nat, builtins: set<string>, others: seq<Effect>)
    requires Steady(s.disk) && Prints(st, s, text, code, builtins) && |others| == 1 && SteadyEffects(others)
    requires now.disk == s.disk && now.env == s.env && now.uid == s.uid && now.user == s.user && now.cwd == s.cwd
    ensures PipelineRun(now, [st], 1, builtins, others).0 == now.(exitCode := code, output := now.output + [Text(text)])
  {
    hide Called, PipelineRun, Steady, SteadyEffects;
    PipelineNext(now, [st], 0, builtins, others);
    NoStageYet(now, [st], builtins, others);
  }

  /** After this operator, a pipeline with this exit code is the last to run. */
  predicate Stops(next: string, code: nat) {
    (next == "&&" && code != 0) || (next == "||" && code == 0)
  }

  function AllText(texts: seq<string>): seq<Written> {
    seq(|texts|, i requires 0 <= i < |texts| => Text(texts[i]))
  }

  /** A list of one-stage pipelines, each printing its text with its exit code. */
  ghost predicate PrintingList(s: Session, ps: seq<Pipeline>, texts: seq<string>, codes: seq<nat>, builtins: set<string>)
    requires Closed(s.disk.tree)
  {
    && |ps| == |texts| == |codes|
    && forall i :: 0 <= i < |ps| ==>
         |ps[i].stages| == 1 && Prints(EncodedStage(ps[i].stages[0]), s, texts[i], codes[i], builtins)
  }

  lemma OneEncoded(ss: seq<Stage>)
    requires |ss| == 1
    ensures EncodedStages(ss) == [EncodedStage(ss[0])]
  {
    hide EncodedStage;
    assert ss[1..] == [];
    assert EncodedStages([]) == [];
  }

  /** The first `k` of them, run in turn. */
  lemma {:induction false} ListPrints(
    s: Session, ps: seq<Pipeline>, texts: seq<string>, codes: seq<nat>, k: nat, builtins: set<string>, lists: seq<seq<Effect>>)
    requires Steady(s.disk) && PrintingList(s, ps, texts, codes, builtins) && Enough(ps, k, lists)
    ensures LineRun(s, ps, k, builtins, lists) ==
      (s.(exitCode := if k == 0 then s.exitCode else codes[k - 1], output := s.output + AllText(texts[..k])), codes[..k])
  {
    hide PipelineRun, EncodedStage, Steady, LineRun, Prints, EncodedStages, SteadyEffects;
    if k == 0 {
      NothingRun(s, ps, builtins, lists);
      assert s.output + [] == s.output;
    } else {
      ListPrints(s, ps, texts, codes, k - 1, builtins, lists);
      LineRunNext(s, ps, k - 1, builtins, lists);
      OneEncoded(ps[k - 1].stages);
      var st := EncodedStage(ps[k - 1].stages[0]);
      OneStagePrints(s, LineRun(s, ps, k - 1, builtins, lists).0, st, texts[k - 1], codes[k - 1], builtins, lists[k - 1]);
      assert s.output + AllText(texts[..k - 1]) + [Text(texts[k - 1])] == s.output + AllText(texts[..k]);
      assert codes[..k - 1] + [codes[k - 1]] == codes[..k];
    }
  }

  lemma NothingRun(s: Session, ps: seq<Pipeline>, builtins: set<string>, lists: seq<seq<Effect>>)
    requires Steady(s.disk) && Enough(ps, 0, lists)
    ensures LineRun(s, ps, 0, builtins, lists) == (s, [])
  {
  }

  /** `;`, `&&` and `||`: a list runs, in order, exactly up to the first pipeline that
      fails before `&&` or succeeds before `||`, and prints the texts of those that ran. */
  lemma ListSays(
    s: Session, ps: seq<Pipeline>, texts: seq<string>, codes: seq<nat>, n: nat, builtins: set<string>, lists: seq<seq<Effect>>)
    requires Steady(s.disk) && PrintingList(s, ps, texts, codes, builtins) && Enough(ps, n, lists) && !s.exitFlag
    requires RunsFirst(s, ps, n, builtins, lists)
    ensures forall i :: 0 <= i < n - 1 ==> !Stops(ps[i].next, codes[i])
    ensures n < |ps| ==> n > 0 && Stops(ps[n - 1].next, codes[n - 1])
    ensures LineRun(s, ps, n, builtins, lists).0.output == s.output + AllText(texts[..n])
    ensures LineRun(s, ps, n, builtins, lists).1 == codes[..n]
  {
    hide LineRun, Steady, PrintingList, SteadyLists;
    ListPrints(s, ps, texts, codes, n, builtins, lists);
    ListShape(s, ps, texts, codes, builtins);
    forall i | 0 <= i < n ensures LineRun(s, ps, i + 1, builtins, lists).0.exitCode == codes[i]
                                  && LineRun(s, ps, i + 1, builtins, lists).0.exitFlag == s.exitFlag
    {
      ListPrints(s, ps, texts, codes, i + 1, builtins, lists);
    }
  }

  lemma ListShape(s: Session, ps: seq<Pipeline>, texts: seq<string>, codes: seq<nat>, builtins: set<string>)
    requires Steady(s.disk) && PrintingList(s, ps, texts, codes, builtins)
    ensures |ps| == |texts| == |codes|
  {
  }

  /** Of any pipeline whose last stage is not redirected, exactly that stage's text is
      shown, if it has one. */
  lemma LastIsShown(s: Session, stages: seq<Stage>, builtins: set<string>, others: seq<Effect>)
    requires Steady(s.disk) && stages != [] && |others| == |stages| && SteadyEffects(others)
    requires var st := stages[|stages| - 1]; st.argv != [] && st.out == "" && st.append == ""
    ensures var n := |stages| - 1;
            var (now, carry) := PipelineRun(s, stages, n, builtins, others);
            Closed(now.disk.tree) &&
            var a := Called(now, stages[n].argv, carry, builtins, others[n]);
            PipelineRun(s, stages, n + 1, builtins, others).0 ==
              a.after.(exitCode := a.code, output := a.after.output + if a.out == "" then [] else [Text(a.out)])
  {
    hide Called, PipelineRun, SteadyEffects, Closed;
    var n := |stages| - 1;
    PipelineNext(s, stages, n, builtins, others);
    var (now, carry) := PipelineRun(s, stages, n, builtins, others);
    var a := Called(now, stages[n].argv, carry, builtins, others[n]);
    assert a.after.output + [] == a.after.output;
  }

  /** Of any list: an exit stops it too. */
  lemma LineStops(s: Session, ps: seq<Pipeline>, n: nat, builtins: set<string>, lists: seq<seq<Effect>>)
    requires Steady(s.disk) && Enough(ps, n, lists) && RunsFirst(s, ps, n, builtins, lists)
    ensures forall i :: 0 <= i < n - 1 ==>
      var after := LineRun(s, ps, i + 1, builtins, lists).0; !Stops(ps[i].next, after.exitCode) && !after.exitFlag
    ensures n < |ps| ==>
      n > 0 && var after := LineRun(s, ps, n, builtins, lists).0; Stops(ps[n - 1].next, after.exitCode) || after.exitFlag
  {
    hide LineRun, Steady, SteadyLists;
  }

  // ----- One command and its redirection.

  /** `echo words > f` leaves the words in the file and reports an upload of them; or,
      where the write is refused, says why with exit code 1 and changes nothing. */
  lemma RedirectSays(s: Session, words: seq<string>, f: string, builtins: set<string>, others: seq<Effect>)
    requires Steady(s.disk) && AllPlainly(words) && "echo" in builtins && f != "" && |others| == 1 && SteadyEffects(others)
    ensures var now := PipelineRun(s, [Stage(["echo"] + words, f, "", "")], 1, builtins, others).0;
            var bytes, target := Bytes(Join(words, ' ') + "\n"), Clean(s.cwd, f);
            var refused := WriteRefused(s.disk.tree, s.disk.written, target, |bytes|);
            if refused.Some? then now == s.(exitCode := 1, output := s.output + [Refusal(f, refused.value)])
            else now == s.(exitCode := 0, disk := AfterWrite(s.disk, target, bytes, 420), uploads := s.uploads + [Upload(target, bytes, f)])
  {
    hide Called, PipelineRun, Join, AllPlainly, Steady, Closed, SteadyEffects, SteadyEffect, Clean, AfterWrite, WriteRefused, Bytes;
    var stages := [Stage(["echo"] + words, f, "", "")];
    var text := Join(words, ' ') + "\n";
    SteadyClosed(s.disk);
    NoStageYet(s, stages, builtins, others);
    PipelineNext(s, stages, 0, builtins, others);
    EchoEffect(s, words, "", builtins, others[0]);
    SavedIs(s.(exitCode := 0), f, text);
    RefusedStays(s.disk, Clean(s.cwd, f), Bytes(text), 420);
  }

  /** `echo words >> f` adds them, without a report. */
  lemma AppendSays(s: Session, words: seq<string>, f: string, builtins: set<string>, others: seq<Effect>)
    requires Steady(s.disk) && AllPlainly(words) && "echo" in builtins && f != "" && |others| == 1 && SteadyEffects(others)
    ensures var now := PipelineRun(s, [Stage(["echo"] + words, "", f, "")], 1, builtins, others).0;
            var bytes, target := Bytes(Join(words, ' ') + "\n"), Clean(s.cwd, f);
            var refused := AppendRefused(s.disk.tree, s.disk.written, target, |bytes|);
            if refused.Some? then now == s.(exitCode := 1, output := s.output + [Refusal(f, refused.value)])
            else now == s.(exitCode := 0, disk := AfterAppend(s.disk, target, bytes))
  {
    hide Called, PipelineRun, Join, AllPlainly, Steady, Closed, SteadyEffects, SteadyEffect, Clean, AfterAppend, AppendRefused, Bytes;
    var stages := [Stage(["echo"] + words, "", f, "")];
    var text := Join(words, ' ') + "\n";
    SteadyClosed(s.disk);
    NoStageYet(s, stages, builtins, others);
    PipelineNext(s, stages, 0, builtins, others);
    EchoEffect(s, words, "", builtins, others[0]);
    AddedIs(s.(exitCode := 0), f, text);
    RefusedStays(s.disk, Clean(s.cwd, f), Bytes(text), 420);
  }

  /** A path that names no command: not there, or there but not executable. */
  lemma PathEffect(s: Session, before: string, name: string, args: seq<string>, stdin: string, builtins: set<string>, other: Effect)
    requires Closed(s.disk.tree) && CommandName(name) && '=' !in before && name !in builtins
    ensures var word := before + "/" + name;
            Called(s, [word] + args, stdin, builtins, other) ==
              if Lookup(s.disk.tree, Clean(s.cwd, word), true, 0).Failed?
              then Effect(s, "bash: " + word + ": No such file or directory\n", 127)
              else Effect(s, "bash: " + word + ": Permission denied\n", 126)
  {
    hide Handled, Base, Lookup, Clean, Echoed, Closed, Size, Settled;
    var word := before + "/" + name;
    BaseLast(before, name);
    assert '=' !in word && '/' in word by { assert word[|before|] == '/'; }
    assert ([word] + args)[0] == word && ([word] + args)[1..] == args;
    SettledOnce(Call([word] + args, stdin), s.env, Identity(s), builtins);
    assert "" + NotFoundText(s.disk.tree, s.cwd, word).0 == NotFoundText(s.disk.tree, s.cwd, word).0;
  }
}
