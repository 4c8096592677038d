/** Evaluating command lines (node/internal/shell/shell.go and the dispatcher of
    node/internal/shell/commands.go). */
module Shells {
  import opened Basics
  import opened Paths
  import opened Trees
  import opened TreeEdits
  import opened Lookups
  import opened Vfs
  import opened StoredBytes
  import opened ShellParser
  import opened Dispatch
  import opened EchoCommand

  // ----- Words of runes as texts of bytes.

  /** UTF-8. */
  function Utf8(c: char): string {
    var n := c as int;
    if n < 0x80 then [c]
    else if n < 0x800 then [(0xC0 + n / 64) as char, (0x80 + n % 64) as char]
    else if n < 0x1_0000 then [(0xE0 + n / 4096) as char, (0x80 + n / 64 % 64) as char, (0x80 + n % 64) as char]
    else [(0xF0 + n / 0x4_0000) as char, (0x80 + n / 4096 % 64) as char, (0x80 + n / 64 % 64) as char, (0x80 + n % 64) as char]
  }

  function Encoded(word: string): string {
    if word == "" then "" else Utf8(word[0]) + Encoded(word[1..])
  }

  function EncodedAll(words: seq<string>): (r: seq<string>)
    ensures |r| == |words|
  {
    if words == [] then [] else [Encoded(words[0])] + EncodedAll(words[1..])
  }

  function EncodedStage(s: Stage): Stage {
    Stage(EncodedAll(s.argv), Encoded(s.out), Encoded(s.append), Encoded(s.input))
  }

  predicate Ascii(s: string) {
    forall i :: 0 <= i < |s| ==> s[i] as int < 128
  }

  lemma {:induction false} EncodedAscii(word: string)
    requires Ascii(word)
    ensures Encoded(word) == word
  {
    if word != "" {
      EncodedAscii(word[1..]);
    }
  }

  // ----- The session.

  /** An upload reported to the sensor. */
  datatype Upload = Upload(path: string, content: seq<Byte>, claimed: string)

  datatype Written = Text(text: string) | Refusal(target: string, error: FsError)

  /** The shell's answer to a word that names no command. */
  function NotFoundText(t: Tree, cwd: string, word: string): (r: (string, nat))
    requires Closed(t)
  {
    if '/' !in word then ("bash: " + Base(word) + ": command not found\n", 127)
    else if Lookup(t, Clean(cwd, word), true, 0).Failed? then ("bash: " + word + ": No such file or directory\n", 127)
    else ("bash: " + word + ": Permission denied\n", 126)
  }

  /** Everything a command line can change. */
  datatype Session = Session(
    disk: Disk, uid: int, user: string, cwd: string, env: Env, exitCode: nat, exitFlag: bool,
    uploads: seq<Upload>, output: seq<Written>)

  /** What one command did: the session after it, its output and its exit code. */
  datatype Effect = Effect(after: Session, out: string, code: nat)

  predicate IsEcho(name: string) {
    name == "echo" || name == "printf"
  }

  function Identity(s: Session): Who {
    Who(s.uid == 0, s.user)
  }

  // ----- What a command line does, as a function of the session. Of a command
  // ----- that is not modelled, its effect is an input.

  /** The effect of a call whose chain ends in `o`. */
  function Answered(s: Session, o: Outcome, other: Effect): Effect
    requires Closed(s.disk.tree) && !o.answer.Again?
  {
    var now := s.(env := o.env);
    if o.answer.Reply? then Effect(now, o.notices + o.answer.text, o.answer.code)
    else if o.answer.Unknown? then
      var r := NotFoundText(s.disk.tree, s.cwd, o.answer.word);
      Effect(now, o.notices + r.0, r.1)
    else if IsEcho(o.answer.name) then
      Effect(now, o.notices + Echoed(o.answer.name, o.answer.args, o.env, s.exitCode), 0)
    else Effect(other.after, o.notices + other.out, other.code)
  }

  function Called(s: Session, argv: seq<string>, stdin: string, builtins: set<string>, other: Effect): Effect
    requires Closed(s.disk.tree)
  {
    Answered(s, Settled(Call(argv, stdin), s.env, Identity(s), builtins), other)
  }

  /** `>`: the output becomes the file, and an upload if there is any. */
  function Saved(s: Session, redirect: string, text: string): Session
    requires Closed(s.disk.tree)
  {
    var target := Clean(s.cwd, redirect);
    var refused := WriteRefused(s.disk.tree, s.disk.written, target, |text|);
    if refused.Some? then s.(output := s.output + [Refusal(redirect, refused.value)], exitCode := 1)
    else
      s.(disk := AfterWrite(s.disk, target, Bytes(text), 420),
         uploads := if text == "" then s.uploads else s.uploads + [Upload(target, Bytes(text), redirect)])
  }

  /** `>>`: the output is added to the file. */
  function Added(s: Session, redirect: string, text: string): Session
    requires Closed(s.disk.tree)
  {
    var target := Clean(s.cwd, redirect);
    var refused := AppendRefused(s.disk.tree, s.disk.written, target, |text|);
    if refused.Some? then s.(output := s.output + [Refusal(redirect, refused.value)], exitCode := 1)
    else s.(disk := AfterAppend(s.disk, target, Bytes(text)))
  }

  lemma SavedIs(s: Session, redirect: string, text: string)
    requires Closed(s.disk.tree)
    ensures var target := Clean(s.cwd, redirect);
            var refused := WriteRefused(s.disk.tree, s.disk.written, target, |Bytes(text)|);
            var now := s.(disk := AfterWrite(s.disk, target, Bytes(text), 420));
            Saved(s, redirect, text) ==
              if refused.Some? then now.(output := s.output + [Refusal(redirect, refused.value)], exitCode := 1)
              else if text == "" then now else now.(uploads := s.uploads + [Upload(target, Bytes(text), redirect)])
  {
    hide Clean, WriteRefused, AfterWrite;
    RefusedStays(s.disk, Clean(s.cwd, redirect), Bytes(text), 420);
  }

  lemma AddedIs(s: Session, redirect: string, text: string)
    requires Closed(s.disk.tree)
    ensures var target := Clean(s.cwd, redirect);
            var refused := AppendRefused(s.disk.tree, s.disk.written, target, |Bytes(text)|);
            var now := s.(disk := AfterAppend(s.disk, target, Bytes(text)));
            Added(s, redirect, text) ==
              if refused.Some? then now.(output := s.output + [Refusal(redirect, refused.value)], exitCode := 1) else now
  {
    hide Clean, AppendRefused, AfterAppend;
    RefusedStays(s.disk, Clean(s.cwd, redirect), Bytes(text), 420);
  }

  function Shown(s: Session, text: string): Session {
    if text == "" then s else s.(output := s.output + [Text(text)])
  }

  ghost predicate SteadyEffect(e: Effect) {
    Steady(e.after.disk)
  }

  /** One stage: the session after it, and what the next stage reads. */
  function StageRun(s: Session, st: Stage, carry: string, last: bool, builtins: set<string>, other: Effect): (r: (Session, string))
    requires Steady(s.disk) && SteadyEffect(other)
  {
    var a := Called(s, st.argv, carry, builtins, other);
    assert Steady(a.after.disk);
    var ran := a.after.(exitCode := a.code);
    if st.out != "" then (Saved(ran, st.out, a.out), "")
    else if st.append != "" then (Added(ran, st.append, a.out), "")
    else if last then (Shown(ran, a.out), "")
    else (ran, a.out)
  }

  lemma CalledDisk(s: Session, argv: seq<string>, stdin: string, builtins: set<string>, other: Effect)
    requires Closed(s.disk.tree)
    ensures var d := Called(s, argv, stdin, builtins, other).after.disk; d == s.disk || d == other.after.disk
  {
    hide Settled, Echoed, NotFoundText;
  }

  lemma StageSteady(s: Session, st: Stage, carry: string, last: bool, builtins: set<string>, other: Effect)
    requires Steady(s.disk) && SteadyEffect(other)
    ensures Steady(StageRun(s, st, carry, last, builtins, other).0.disk)
  {
    hide Called, Clean, WriteRefused, AppendRefused, AfterWrite, AfterAppend, Closed;
    var a := Called(s, st.argv, carry, builtins, other);
    CalledDisk(s, st.argv, carry, builtins, other);
    AfterWriteSteady(a.after.disk, Clean(a.after.cwd, st.out), Bytes(a.out), 420);
    AfterAppendSteady(a.after.disk, Clean(a.after.cwd, st.append), Bytes(a.out));
  }

  ghost predicate SteadyEffects(others: seq<Effect>) {
    forall e :: e in others ==> SteadyEffect(e)
  }

  /** The session after the first `k` stages of a pipeline, and what they hand on.
      A stage without words is passed over. */
  function PipelineRun(s: Session, stages: seq<Stage>, k: nat, builtins: set<string>, others: seq<Effect>): (r: (Session, string))
    requires Steady(s.disk) && k <= |stages| && k <= |others| && SteadyEffects(others)
    ensures Steady(r.0.disk)
  {
    if k == 0 then (s, "")
    else
      var b := PipelineRun(s, stages, k - 1, builtins, others);
      if stages[k - 1].argv == [] then b
      else
        StageSteady(b.0, stages[k - 1], b.1, k == |stages|, builtins, others[k - 1]);
        StageRun(b.0, stages[k - 1], b.1, k == |stages|, builtins, others[k - 1])
  }

  lemma {:induction false} PipelineAgrees(
    s: Session, stages: seq<Stage>, k: nat, builtins: set<string>, others: seq<Effect>, more: seq<Effect>)
    requires Steady(s.disk) && k <= |stages| && k <= |others| && SteadyEffects(others) && SteadyEffects(more)
    requires others <= more
    ensures PipelineRun(s, stages, k, builtins, more) == PipelineRun(s, stages, k, builtins, others)
  {
    hide StageRun, Steady, SteadyEffect;
    if k > 0 {
      PipelineAgrees(s, stages, k - 1, builtins, others, more);
    }
  }

  /** The stage comes down to an answer, an unknown word or echo. */
  predicate Modelled(s: Session, st: Stage, carry: string, builtins: set<string>) {
    var a := Settled(Call(st.argv, carry), s.env, Identity(s), builtins).answer;
    a.Run? ==> IsEcho(a.name)
  }

  lemma ModelledStage(s: Session, st: Stage, carry: string, last: bool, builtins: set<string>, a: Effect, b: Effect)
    requires Steady(s.disk) && SteadyEffect(a) && SteadyEffect(b) && Modelled(s, st, carry, builtins)
    ensures StageRun(s, st, carry, last, builtins, a) == StageRun(s, st, carry, last, builtins, b)
  {
    hide Settled, Saved, Added, Shown, Echoed, NotFoundText;
  }

  lemma PipelineNext(s: Session, stages: seq<Stage>, k: nat, builtins: set<string>, others: seq<Effect>)
    requires Steady(s.disk) && k < |stages| && k < |others| && SteadyEffects(others)
    ensures SteadyEffect(others[k])
    ensures var b := PipelineRun(s, stages, k, builtins, others);
            PipelineRun(s, stages, k + 1, builtins, others) ==
              if stages[k].argv == [] then b else StageRun(b.0, stages[k], b.1, k + 1 == |stages|, builtins, others[k])
  {
    hide StageRun;
  }

  /** Where every stage is such, the session before a pipeline decides the one after. */
  lemma {:induction false} PipelineDetermined(
    s: Session, stages: seq<Stage>, k: nat, builtins: set<string>, a: seq<Effect>, b: seq<Effect>)
    requires Steady(s.disk) && k <= |stages| && k <= |a| && k <= |b| && SteadyEffects(a) && SteadyEffects(b)
    requires forall i :: 0 <= i < k && stages[i].argv != [] ==>
      Modelled(PipelineRun(s, stages, i, builtins, a).0, stages[i], PipelineRun(s, stages, i, builtins, a).1, builtins)
    ensures PipelineRun(s, stages, k, builtins, a) == PipelineRun(s, stages, k, builtins, b)
  {
    hide StageRun, Modelled, SteadyEffects, SteadyEffect, PipelineRun;
    if k == 0 {
      NoStageYet(s, stages, builtins, a);
      NoStageYet(s, stages, builtins, b);
    } else {
      PipelineDetermined(s, stages, k - 1, builtins, a, b);
      PipelineNext(s, stages, k - 1, builtins, a);
      PipelineNext(s, stages, k - 1, builtins, b);
      if stages[k - 1].argv != [] {
        var before := PipelineRun(s, stages, k - 1, builtins, a);
        ModelledStage(before.0, stages[k - 1], before.1, k == |stages|, builtins, a[k - 1], b[k - 1]);
      }
    }
  }

  lemma NoStageYet(s: Session, stages: seq<Stage>, builtins: set<string>, others: seq<Effect>)
    requires Steady(s.disk) && SteadyEffects(others)
    ensures PipelineRun(s, stages, 0, builtins, others) == (s, "")
  {
  }

  ghost predicate SteadyLists(lists: seq<seq<Effect>>) {
    forall i :: 0 <= i < |lists| ==> SteadyEffects(lists[i])
  }

  /** Enough effects for every stage of the first `k` pipelines. */
  ghost predicate Enough(ps: seq<Pipeline>, k: nat, lists: seq<seq<Effect>>) {
    k <= |ps| && k <= |lists| && SteadyLists(lists) && forall i :: 0 <= i < k ==> |lists[i]| == |ps[i].stages|
  }

  /** The session after the first `k` pipelines of a line, and their exit codes. */
  function LineRun(s: Session, ps: seq<Pipeline>, k: nat, builtins: set<string>, lists: seq<seq<Effect>>): (r: (Session, seq<nat>))
    requires Steady(s.disk) && Enough(ps, k, lists)
    ensures Steady(r.0.disk) && |r.1| == k
  {
    if k == 0 then (s, [])
    else
      var b := LineRun(s, ps, k - 1, builtins, lists);
      var stages := EncodedStages(ps[k - 1].stages);
      var after := PipelineRun(b.0, stages, |stages|, builtins, lists[k - 1]).0;
      (after, b.1 + [after.exitCode])
  }

  lemma {:induction false} LineAgrees(
    s: Session, ps: seq<Pipeline>, k: nat, builtins: set<string>, lists: seq<seq<Effect>>, more: seq<seq<Effect>>)
    requires Steady(s.disk) && Enough(ps, k, lists) && Enough(ps, k, more) && lists <= more
    ensures LineRun(s, ps, k, builtins, more) == LineRun(s, ps, k, builtins, lists)
  {
    hide PipelineRun, EncodedStages, Steady, SteadyEffects;
    if k > 0 {
      LineAgrees(s, ps, k - 1, builtins, lists, more);
    }
  }

  /** After a pipeline that left this session, the next one runs. */
  predicate GoesOn(p: Pipeline, after: Session) {
    (p.next == "&&" ==> after.exitCode == 0) && (p.next == "||" ==> after.exitCode != 0) && !after.exitFlag
  }

  /** Exactly the first `k` pipelines run: each lets the next one on, and the last
      of them does not, unless the line ends there. */
  ghost predicate RunsFirst(s: Session, ps: seq<Pipeline>, k: nat, builtins: set<string>, lists: seq<seq<Effect>>)
    requires Steady(s.disk) && Enough(ps, k, lists)
  {
    && (forall i :: 0 <= i < k - 1 ==> GoesOn(ps[i], LineRun(s, ps, i + 1, builtins, lists).0))
    && (k < |ps| ==> k > 0 && !GoesOn(ps[k - 1], LineRun(s, ps, k, builtins, lists).0))
  }

  /** Each of the first `k` pipelines lets the next one on. */
  ghost predicate Onward(s: Session, ps: seq<Pipeline>, k: nat, builtins: set<string>, lists: seq<seq<Effect>>)
    requires Steady(s.disk) && Enough(ps, k, lists)
  {
    forall i :: 0 <= i < k ==> GoesOn(ps[i], LineRun(s, ps, i + 1, builtins, lists).0)
  }

  lemma NoLineYet(s: Session, ps: seq<Pipeline>, builtins: set<string>)
    requires Steady(s.disk)
    ensures LineRun(s, ps, 0, builtins, []) == (s, []) && Onward(s, ps, 0, builtins, [])
  {
  }

  lemma LineRunNext(s: Session, ps: seq<Pipeline>, k: nat, builtins: set<string>, lists: seq<seq<Effect>>)
    requires Steady(s.disk) && k < |ps| && Enough(ps, k + 1, lists)
    ensures var b, stages := LineRun(s, ps, k, builtins, lists), EncodedStages(ps[k].stages);
            var after := PipelineRun(b.0, stages, |stages|, builtins, lists[k]).0;
            LineRun(s, ps, k + 1, builtins, lists) == (after, b.1 + [after.exitCode])
  {
    hide PipelineRun, EncodedStages;
  }

  lemma EnoughMore(ps: seq<Pipeline>, k: nat, lists: seq<seq<Effect>>, others: seq<Effect>)
    requires k < |ps| && k == |lists| && Enough(ps, k, lists) && |others| == |ps[k].stages| && SteadyEffects(others)
    ensures Enough(ps, k + 1, lists + [others]) && forall i :: 0 <= i <= k ==> Enough(ps, i, lists + [others]) && Enough(ps, i, lists)
  {
    hide SteadyEffects;
  }

  /** One more pipeline. */
  lemma OnePipeline(s: Session, ps: seq<Pipeline>, k: nat, builtins: set<string>, lists: seq<seq<Effect>>, others: seq<Effect>)
    requires Steady(s.disk) && k < |ps| && k == |lists| && Enough(ps, k, lists) && Onward(s, ps, k, builtins, lists)
    requires |others| == |ps[k].stages| && SteadyEffects(others)
    ensures Enough(ps, k + 1, lists + [others]) && Onward(s, ps, k, builtins, lists + [others])
    ensures var b, stages := LineRun(s, ps, k, builtins, lists), EncodedStages(ps[k].stages);
            var after := PipelineRun(b.0, stages, |stages|, builtins, others).0;
            LineRun(s, ps, k + 1, builtins, lists + [others]) == (after, b.1 + [after.exitCode])
  {
    hide PipelineRun, EncodedStages, GoesOn, SteadyEffects, LineRun, Enough, Steady;
    var more := lists + [others];
    EnoughMore(ps, k, lists, others);
    LineAgrees(s, ps, k, builtins, lists, more);
    assert more[k] == others;
    LineRunNext(s, ps, k, builtins, more);
    forall i | 0 <= i < k ensures GoesOn(ps[i], LineRun(s, ps, i + 1, builtins, more).0) {
      LineAgrees(s, ps, i + 1, builtins, lists, more);
    }
  }

  lemma FurtherOn(s: Session, ps: seq<Pipeline>, k: nat, builtins: set<string>, lists: seq<seq<Effect>>)
    requires Steady(s.disk) && k < |ps| && Enough(ps, k + 1, lists) && Onward(s, ps, k, builtins, lists)
    ensures var after := LineRun(s, ps, k + 1, builtins, lists).0;
            !(ps[k].next == "&&" && after.exitCode != 0) && !(ps[k].next == "||" && after.exitCode == 0) && !after.exitFlag
            ==> Onward(s, ps, k + 1, builtins, lists)
  {
    hide LineRun;
  }

  lemma StopsHere(s: Session, ps: seq<Pipeline>, k: nat, builtins: set<string>, lists: seq<seq<Effect>>)
    requires Steady(s.disk) && k < |ps| && Enough(ps, k + 1, lists) && Onward(s, ps, k, builtins, lists)
    ensures var after := LineRun(s, ps, k + 1, builtins, lists).0;
            (ps[k].next == "&&" && after.exitCode != 0) || (ps[k].next == "||" && after.exitCode == 0) || after.exitFlag
            ==> RunsFirst(s, ps, k + 1, builtins, lists)
  {
    hide LineRun;
  }

  lemma OnwardToEnd(s: Session, ps: seq<Pipeline>, builtins: set<string>, lists: seq<seq<Effect>>)
    requires Steady(s.disk) && Enough(ps, |ps|, lists) && Onward(s, ps, |ps|, builtins, lists)
    ensures RunsFirst(s, ps, |ps|, builtins, lists)
  {
    hide LineRun, GoesOn;
  }

  function EncodedStages(ss: seq<Stage>): (r: seq<Stage>)
    ensures |r| == |ss| && forall i :: 0 <= i < |ss| ==> r[i] == EncodedStage(ss[i])
  {
    if ss == [] then [] else [EncodedStage(ss[0])] + EncodedStages(ss[1..])
  }

  lemma RanHere(a: Answer, env: Env, who: Who, builtins: set<string>)
    ensures !a.Again? ==> Continued(a, env, who, builtins) == Outcome(env, "", a, 0)
  {
  }

  /** A notice goes in front of whatever the rest of the chain puts out. */
  lemma NoticeFirst(s: Session, o: Outcome, notice: string, other: Effect)
    requires Closed(s.disk.tree) && !o.answer.Again?
    ensures var e, f := Answered(s, o, other), Answered(s, o.(notices := notice + o.notices, hops := o.hops + 1), other);
            f == e.(out := notice + e.out)
  {
    hide NotFoundText, Echoed;
    assert forall x: string :: notice + (o.notices + x) == notice + o.notices + x;
  }

  lemma NoNotice(name: string, out: string)
    ensures name != "nohup" ==> NohupNotice(name) + out == out
  {
  }

  class Shell {
    const fs: FS
    /** The names `builtins` has handlers for. */
    const builtins: set<string>
    var uid: int
    var user: string
    var cwd: string
    var env: Env
    var exitCode: nat
    var exitFlag: bool
    var uploads: seq<Upload>
    var output: seq<Written>

    constructor (fs: FS, builtins: set<string>, uid: int, user: string, cwd: string, env: Env)
      ensures this.fs == fs && this.builtins == builtins
      ensures View() == Session(fs.View(), uid, user, cwd, env, 0, false, [], [])
    {
      this.fs, this.builtins, this.uid, this.user, this.cwd, this.env := fs, builtins, uid, user, cwd, env;
      exitCode, exitFlag, uploads, output := 0, false, [], [];
    }

    function View(): Session
      reads this, fs
    {
      Session(fs.View(), uid, user, cwd, env, exitCode, exitFlag, uploads, output)
    }

    /** The filesystem keeps its shape and its quota. */
    twostate predicate Sound()
      reads this, fs
    {
      fs.Valid() && old(fs.written) <= fs.written
    }

    /** `runStage`. */
    method RunStage(argv: seq<string>, stdin: string) returns (out: string, code: nat, ghost other: Effect)
      requires fs.Valid()
      modifies this, fs
      ensures Sound() && SteadyEffect(other)
      ensures Effect(View(), out, code) == Called(old(View()), argv, stdin, builtins, other)
      decreases |argv| + |Fields(stdin)|, 2
    {
      hide Settled, NotFoundText, Handled, FS.Valid, Closed, Steady, IndexOf, Base, Fields, Echoed;
      ghost var s := View();
      SettledOnce(Call(argv, stdin), env, Identity(s), builtins);
      other := Here();
      var rest := TakeAssignments(argv);
      if |rest| == 0 {
        return "", 0, other;
      }
      var name := Base(rest[0]);
      if name in builtins {
        out, code, other := Handle(name, rest[1..], stdin);
        return;
      }
      var r := NotFound(rest[0]);
      return r.0, r.1, other;
    }

    /** The assignments in front of a command go into the environment. */
    method TakeAssignments(argv: seq<string>) returns (rest: seq<string>)
      modifies this`env
      ensures rest == Stripped(argv) && env == Assigned(argv, old(env))
    {
      hide IndexOf;
      rest := argv;
      while |rest| > 0 && Assignment(rest[0])
        invariant Stripped(rest) == Stripped(argv) && Assigned(rest, env) == Assigned(argv, old(env))
      {
        env := Assign(env, rest[0]);
        rest := rest[1..];
      }
    }

    /** Standing in for the effect of a command where there is none. */
    ghost function Here(): (e: Effect)
      requires fs.Valid()
      reads this, fs
      ensures SteadyEffect(e)
    {
      Effect(View(), "", 0)
    }

    method NotFound(word: string) returns (r: (string, nat))
      requires fs.Valid()
      ensures r == NotFoundText(fs.tree, cwd, word)
    {
      hide Lookup, Clean, Base;
      if '/' in word {
        var found := LookupDepth(fs.tree, Clean(cwd, word), true, 0);
        if found.Failed? {
          return ("bash: " + word + ": No such file or directory\n", 127);
        }
        return ("bash: " + word + ": Permission denied\n", 126);
      }
      return ("bash: " + Base(word) + ": command not found\n", 127);
    }

    /** The effect is that of the handler's answer. */
    twostate predicate Answers(a: Answer, out: string, code: nat, other: Effect)
      requires old(fs.Valid())
      reads this, fs
    {
      var s := old(View());
      Effect(View(), out, code) == Answered(s, Continued(a, s.env, Identity(s), builtins), other)
    }

    /** The handler of a command. */
    method Handle(name: string, args: seq<string>, stdin: string) returns (out: string, code: nat, ghost other: Effect)
      requires fs.Valid()
      modifies this, fs
      ensures Sound() && SteadyEffect(other)
      ensures Answers(Handled(name, args, stdin, Identity(old(View())), builtins), out, code, other)
      decreases |args| + 1 + |Fields(stdin)|, 1
    {
      hide Settled, NotFoundText, Operands, Fields, Applet, FS.Valid, Closed, Steady, Echoed, Sudo, Nohup, Xargs, Busybox, Continued;
      if name == "sudo" {
        out, code, other := RunSudo(args, stdin);
      } else if name == "xargs" {
        out, code, other := RunXargs(args, stdin);
      } else if name == "nohup" || name == "timeout" || name == "watch" {
        out, code, other := RunNohup(name, args, stdin);
      } else if name == "busybox" {
        out, code, other := RunBusybox(args, stdin);
      } else if IsEcho(name) {
        RanHere(Handled(name, args, stdin, Identity(View()), builtins), env, Identity(View()), builtins);
        out := Echo(name, args, env, exitCode);
        code, other := 0, Here();
        assert "" + out == out;
      } else {
        RanHere(Handled(name, args, stdin, Identity(View()), builtins), env, Identity(View()), builtins);
        out, code, other := Other();
        assert "" + out == out;
      }
    }

    method RunSudo(args: seq<string>, stdin: string) returns (out: string, code: nat, ghost other: Effect)
      requires fs.Valid()
      modifies this, fs
      ensures Sound() && SteadyEffect(other)
      ensures Answers(Sudo(args, stdin, Identity(old(View()))), out, code, other)
      decreases |args| + 1 + |Fields(stdin)|, 0
    {
      hide Settled, NotFoundText, Operands, Fields, FS.Valid, Closed, Echoed;
      var ops := CollectOperands(args);
      if |ops| == 0 {
        return "usage: sudo -h | -K | -k | -V\n", 1, Here();
      }
      if uid == 0 {
        out, code, other := RunStage(ops, stdin);
        return;
      }
      return "[sudo] password for " + user + ": \nsudo: 1 incorrect password attempt\n", 1, Here();
    }

    method RunXargs(args: seq<string>, stdin: string) returns (out: string, code: nat, ghost other: Effect)
      requires fs.Valid()
      modifies this, fs
      ensures Sound() && SteadyEffect(other)
      ensures Answers(Xargs(args, stdin), out, code, other)
      decreases |args| + 1 + |Fields(stdin)|, 0
    {
      hide Settled, NotFoundText, Operands, FS.Valid, Closed, Echoed;
      var ops := CollectOperands(args);
      if |ops| == 0 {
        return "", 0, Here();
      }
      out, code, other := RunStage(ops + Fields(stdin), "");
    }

    method RunNohup(name: string, args: seq<string>, stdin: string) returns (out: string, code: nat, ghost other: Effect)
      requires fs.Valid()
      modifies this, fs
      ensures Sound() && SteadyEffect(other)
      ensures Answers(Nohup(name, args, stdin), out, code, other)
      decreases |args| + 1 + |Fields(stdin)|, 0
    {
      hide Settled, NotFoundText, Operands, Fields, FS.Valid, Closed, Echoed, NohupNotice;
      var ops := CollectOperands(args);
      if name == "timeout" && |ops| > 1 {
        ops := ops[1..];
      }
      if |ops| == 0 {
        return "", 0, Here();
      }
      ghost var s := View();
      assert SteadyEffect(Here());
      out, code, other := RunStage(ops, stdin);
      NoticeFirst(s, Settled(Call(ops, stdin), s.env, Identity(s), builtins), NohupNotice(name), other);
      if name == "nohup" {
        out := NohupNotice(name) + out;
      } else {
        NoNotice(name, out);
      }
    }

    method RunBusybox(args: seq<string>, stdin: string) returns (out: string, code: nat, ghost other: Effect)
      requires fs.Valid()
      modifies this, fs
      ensures Sound() && SteadyEffect(other)
      ensures Answers(Busybox(args, stdin, builtins), out, code, other)
      decreases |args| + 1 + |Fields(stdin)|, 0
    {
      hide Settled, NotFoundText, Operands, Fields, FS.Valid, Closed, Echoed, Applet, Xargs;
      if |args| == 0 || args[0] == "--list" {
        out, code, other := Other();
        assert "" + out == out;
        return;
      }
      if !Applet(args[0]) {
        return args[0] + ": applet not found\n", 127, Here();
      }
      if args[0] !in builtins {
        return "", 0, Here();
      }
      out, code, other := Handle(args[0], args[1..], stdin);
    }

    /** Any command that is not modelled: it may do anything to the session, and
        to the filesystem whatever a sequence of its operations does. */
    method Other() returns (out: string, code: nat, ghost other: Effect)
      requires fs.Valid()
      modifies this, fs
      ensures Sound() && SteadyEffect(other) && other == Effect(View(), out, code)
    {
      var ops: seq<Operation> := *;
      Vfs.Session(fs, ops);
      user, cwd, env, exitFlag := *, *, *, *;
      var more: seq<Upload> := *;
      uploads := uploads + more;
      out, code := *, *;
      other := Effect(View(), out, code);
    }

    /** The redirections of a stage's output. */
    method Save(redirect: string, text: string)
      requires fs.Valid()
      modifies this`exitCode, this`uploads, this`output, fs
      ensures Sound() && View() == Saved(old(View()), redirect, text)
    {
      hide Clean, WriteRefused, AfterWrite, Bytes, FS.Valid, Saved, IsPlace, Planted;
      var target := Clean(cwd, redirect);
      assert SteadyEffect(Here());
      SavedIs(View(), redirect, text);
      var err, _ := fs.WriteFile(target, Bytes(text), 420);
      if err.Some? {
        output := output + [Refusal(redirect, err.value)];
        exitCode := 1;
      } else if |text| > 0 {
        uploads := uploads + [Upload(target, Bytes(text), redirect)];
      }
    }

    method Add(redirect: string, text: string)
      requires fs.Valid()
      modifies this`exitCode, this`output, fs
      ensures Sound() && View() == Added(old(View()), redirect, text)
    {
      hide Clean, AppendRefused, AfterAppend, Bytes, FS.Valid, Added, IsPlace, Planted, Retouched;
      var target := Clean(cwd, redirect);
      assert SteadyEffect(Here());
      AddedIs(View(), redirect, text);
      var err, _ := fs.Append(target, Bytes(text));
      if err.Some? {
        output := output + [Refusal(redirect, err.value)];
        exitCode := 1;
      }
    }

    /** One turn of the loop of `runPipeline`, for a stage that has words. */
    method RunRedirected(st: Stage, carry: string, last: bool) returns (next: string, ghost other: Effect)
      requires fs.Valid()
      modifies this, fs
      ensures Sound() && SteadyEffect(other)
      ensures (View(), next) == StageRun(old(View()), st, carry, last, builtins, other)
    {
      hide Called, FS.Valid, Saved, Added;
      next := "";
      var out, code;
      out, code, other := RunStage(st.argv, carry);
      exitCode := code;
      if st.out != "" {
        Save(st.out, out);
      } else if st.append != "" {
        Add(st.append, out);
      } else if last {
        if out != "" {
          output := output + [Text(out)];
        }
      } else {
        next := out;
      }
    }

    /** `runPipeline`: each stage's output becomes the next one's input. */
    method RunPipeline(stages: seq<Stage>) returns (ghost others: seq<Effect>)
      requires fs.Valid()
      modifies this, fs
      ensures Sound() && |others| == |stages| && SteadyEffects(others)
      ensures View() == PipelineRun(old(View()), stages, |stages|, builtins, others).0
    {
      hide StageRun, FS.Valid, Closed;
      others := [];
      var carry := "";
      ghost var s := View();
      assert SteadyEffect(Here());
      for i := 0 to |stages|
        invariant Sound() && |others| == i && SteadyEffects(others)
        invariant (View(), carry) == PipelineRun(s, stages, i, builtins, others)
      {
        ghost var other := Here();
        if |stages[i].argv| > 0 {
          carry, other := RunRedirected(stages[i], carry, i + 1 == |stages|);
        }
        PipelineAgrees(s, stages, i, builtins, others, others + [other]);
        others := others + [other];
      }
    }

    /** `execLine`: pipelines in order, until a failed `&&`, a succeeded `||`, or
        an exit. `codes` are the exit codes of those that ran. */
    method ExecLine(line: string) returns (ghost codes: seq<nat>, ghost lists: seq<seq<Effect>>)
      requires fs.Valid()
      modifies this, fs
      ensures Sound() && Enough(Parsed(line), |codes|, lists)
      ensures (View(), codes) == LineRun(old(View()), Parsed(line), |codes|, builtins, lists)
      ensures RunsFirst(old(View()), Parsed(line), |codes|, builtins, lists)
    {
      hide PipelineRun, LineRun, FS.Valid, Parsed, EncodedStages, Onward, GoesOn;
      codes, lists := [], [];
      var pipelines := Parse(line);
      ghost var s := View();
      assert SteadyEffect(Here());
      NoLineYet(s, pipelines, builtins);
      for i := 0 to |pipelines|
        invariant Sound() && |codes| == i == |lists| && Enough(pipelines, i, lists)
        invariant (View(), codes) == LineRun(s, pipelines, i, builtins, lists)
        invariant Onward(s, pipelines, i, builtins, lists)
      {
        ghost var others;
        others := RunPipeline(EncodedStages(pipelines[i].stages));
        OnePipeline(s, pipelines, i, builtins, lists, others);
        lists, codes := lists + [others], codes + [exitCode];
        if !(pipelines[i].next == "&&" && exitCode != 0) && !(pipelines[i].next == "||" && exitCode == 0) && !exitFlag {
          FurtherOn(s, pipelines, i, builtins, lists);
        } else {
          StopsHere(s, pipelines, i, builtins, lists);
        }
        if pipelines[i].next == "&&" && exitCode != 0 {
          return;
        }
        if pipelines[i].next == "||" && exitCode == 0 {
          return;
        }
        if exitFlag {
          return;
        }
      }
      OnwardToEnd(s, pipelines, builtins, lists);
    }
  }

  /** Any sequence of command lines that do to the filesystem what its modelled
      operations do, with or without the session's limits on how many, leaves a
      tree that holds no more than what was built in plus what the quota admitted,
      and whose links have plain targets if the links built in do. */
  method RunScript(sh: Shell, lines: seq<string>)
    requires sh.fs.Valid()
    modifies sh, sh.fs
    ensures sh.Sound() && IsTree(sh.fs.tree) && sh.fs.written <= MAX_WRITE_BYTES
    ensures ReachableBytes(sh.fs.tree) <= sh.fs.built + sh.fs.written
    ensures PlainLinks(sh.fs.origin) ==> PlainLinks(sh.fs.tree)
  {
    hide IsTree, AllBytes, ReachableBytes, LineRun, RunsFirst, Enough, PlainLinks, NoNewLinks;
    for i := 0 to |lines|
      invariant sh.Sound()
    {
      var _, _ := sh.ExecLine(lines[i]);
    }
    ReachableAtMostAll(sh.fs.tree);
    NoNewLinksPlain(sh.fs.origin, sh.fs.tree);
  }

  /** The bytes that stand for a character: one below 0x80; else a leading byte that
      tells how many, and continuation bytes with six bits each. */
  lemma Utf8Reads(c: char)
    ensures var u, n := Utf8(c), c as int;
            && (|u| == 1 ==> u[0] as int == n < 0x80)
            && (|u| == 2 ==> n == (u[0] as int - 0xC0) * 64 + (u[1] as int - 0x80) && 0x80 <= n < 0x800)
            && (|u| == 3 ==> n == ((u[0] as int - 0xE0) * 64 + (u[1] as int - 0x80)) * 64 + (u[2] as int - 0x80) && 0x800 <= n < 0x1_0000)
            && (|u| == 4 ==> n == (((u[0] as int - 0xF0) * 64 + (u[1] as int - 0x80)) * 64 + (u[2] as int - 0x80)) * 64
                                  + (u[3] as int - 0x80) && n >= 0x1_0000)
            && 1 <= |u| <= 4 && (|u| > 1 ==> forall i :: 0 < i < |u| ==> 0x80 <= u[i] as int < 0xC0)
  {
    var n := c as int;
    assert n / 4096 == n / 64 / 64 && n / 0x4_0000 == n / 4096 / 64;
  }
}
