/** Which command finally runs: `runStage` and the commands that call back into
    it (node/internal/shell/commands.go). From here on a text holds one
    character per byte of the Go string. */
module Dispatch {
  import opened Basics
  import opened Paths
  import opened Text

  type Env = map<string, string>

  datatype Call = Call(argv: seq<string>, stdin: string)

  /** Whether the session is root's, and the name it logged in with. */
  datatype Who = Who(root: bool, user: string)

  // ----- White-space fields (`strings.Fields`).

  predicate Space(c: char) {
    c in "\t\n\r " || c == '\U{0B}' || c == '\U{0C}'
  }

  function Pending(word: string): seq<string> {
    if word == "" then [] else [word]
  }

  function FieldsAfter(word: string, s: string): seq<string>
    decreases |s|
  {
    if s == "" then Pending(word)
    else if Space(s[0]) then Pending(word) + FieldsAfter("", s[1..])
    else FieldsAfter(word + [s[0]], s[1..])
  }

  function Fields(s: string): seq<string> {
    FieldsAfter("", s)
  }

  predicate Field(word: string) {
    word != "" && forall i :: 0 <= i < |word| ==> !Space(word[i])
  }

  predicate AllFields(words: seq<string>) {
    forall i :: 0 <= i < |words| ==> Field(words[i])
  }

  lemma {:induction false} FieldsShape(word: string, s: string)
    requires word == "" || Field(word)
    ensures AllFields(FieldsAfter(word, s))
    decreases |s|
  {
    if s != "" {
      if Space(s[0]) {
        FieldsShape("", s[1..]);
      } else {
        FieldsShape(word + [s[0]], s[1..]);
      }
    }
  }

  lemma {:induction false} FieldsOfWord(begun: string, word: string, rest: string)
    requires forall i :: 0 <= i < |word| ==> !Space(word[i])
    ensures FieldsAfter(begun, word + rest) == FieldsAfter(begun + word, rest)
    decreases |word|
  {
    if word == "" {
      assert word + rest == rest && begun + word == begun;
    } else {
      assert (word + rest)[1..] == word[1..] + rest;
      FieldsOfWord(begun + [word[0]], word[1..], rest);
      assert begun + [word[0]] + word[1..] == begun + word;
    }
  }

  /** Splitting at white space undoes joining with it, whatever white space follows. */
  lemma {:induction false} FieldsJoin(words: seq<string>, end: string)
    requires AllFields(words) && forall i :: 0 <= i < |end| ==> Space(end[i])
    ensures Fields(Join(words, ' ') + end) == words
  {
    if words == [] {
      assert [] + end == end;
      FieldsOfBlank("", end);
    } else {
      var w := words[0];
      assert "" + w == w;
      if |words| == 1 {
        FieldsOfWord("", w, end);
        FieldsOfBlank(w, end);
      } else {
        var rest := Join(words[1..], ' ') + end;
        assert Join(words, ' ') + end == w + (" " + rest);
        FieldsOfWord("", w, " " + rest);
        assert (" " + rest)[1..] == rest;
        FieldsJoin(words[1..], end);
      }
    }
  }

  lemma {:induction false} FieldsOfBlank(word: string, end: string)
    requires forall i :: 0 <= i < |end| ==> Space(end[i])
    ensures FieldsAfter(word, end) == Pending(word)
    decreases |end|
  {
    if end != "" {
      FieldsOfBlank("", end[1..]);
      assert Pending(word) + [] == Pending(word);
    }
  }

  // ----- What the dispatching commands do with their arguments.

  predicate Operand(a: string) {
    a == "-" || a == "" || a[0] != '-'
  }

  function Operands(args: seq<string>): (ops: seq<string>)
    ensures |ops| <= |args|
  {
    if args == [] then [] else (if Operand(args[0]) then [args[0]] else []) + Operands(args[1..])
  }

  /** The loop of `operands`. */
  method CollectOperands(args: seq<string>) returns (out: seq<string>)
    ensures out == Operands(args)
  {
    out := [];
    for i := 0 to |args|
      invariant Operands(args) == out + Operands(args[i..])
    {
      assert args[i..][1..] == args[i + 1..];
      if Operand(args[i]) {
        out := out + [args[i]];
      }
    }
  }

  function IndexOf(s: string, c: char): (i: nat)
    ensures i <= |s| && (i < |s| <==> c in s) && (i < |s| ==> s[i] == c) && c !in s[..i]
  {
    if s == "" || s[0] == c then 0 else 1 + IndexOf(s[1..], c)
  }

  /** A word of the form NAME=value, where NAME holds neither slash nor space. */
  predicate Assignment(word: string) {
    && '=' in word && word[0] != '-'
    && '/' !in word[..IndexOf(word, '=')] && ' ' !in word[..IndexOf(word, '=')]
  }

  function Assign(env: Env, word: string): Env
    requires '=' in word
  {
    var i := IndexOf(word, '=');
    env[word[..i] := word[i + 1..]]
  }

  /** The words after the leading assignments. */
  function Stripped(argv: seq<string>): (rest: seq<string>)
    ensures |rest| <= |argv|
  {
    if argv != [] && Assignment(argv[0]) then Stripped(argv[1..]) else argv
  }

  /** The environment after them. */
  function Assigned(argv: seq<string>, env: Env): Env
    decreases |argv|
  {
    if argv != [] && Assignment(argv[0]) then Assigned(argv[1..], Assign(env, argv[0])) else env
  }

  /** A name busybox dispatches. */
  predicate Applet(name: string)
    ensures Applet(name) ==>
      name != "sudo" && name != "nohup" && name != "timeout" && name != "watch" && name != "busybox"
  {
    name in {
    "arch", "ash", "awk", "base64", "basename", "cat", "chgrp", "chmod", "chown", "cp", "cut", "date", "dd", "df",
    "dmesg", "echo", "egrep", "env", "false", "fgrep", "find", "grep", "gunzip", "gzip", "head", "hostname", "id",
    "ifconfig", "kill", "killall", "ln", "ls", "md5sum", "mkdir", "mktemp", "more", "mount", "mv", "netstat",
    "nslookup", "ping", "ps", "pwd", "rm", "rmdir", "route", "sed", "sh", "sleep", "sort", "stty", "sync", "tail",
    "tar", "tee", "telnet", "test", "top", "touch", "tr", "true", "uname", "uniq", "uptime", "wc", "wget", "which",
    "whoami", "xargs", "yes", "zcat"}
  }

  /** The commands that call back into dispatch; of these only the first is an applet. */
  const CALLERS: seq<string> := ["xargs", "sudo", "nohup", "timeout", "watch", "busybox"]

  /** What a handler comes to: an answer of its own, a command outside these
      ones, or another call, with a notice in front of its output. */
  datatype Answer =
    | Reply(text: string, code: nat)
    | Unknown(word: string)
    | Run(name: string, args: seq<string>, stdin: string)
    | Again(call: Call, notice: string)

  function NohupNotice(name: string): string {
    if name == "nohup" then "nohup: ignoring input and appending output to 'nohup.out'\n" else ""
  }

  function Sudo(args: seq<string>, stdin: string, who: Who): Answer {
    var ops := Operands(args);
    if ops == [] then Reply("usage: sudo -h | -K | -k | -V\n", 1)
    else if who.root then Again(Call(ops, stdin), "")
    else Reply("[sudo] password for " + who.user + ": \nsudo: 1 incorrect password attempt\n", 1)
  }

  function Xargs(args: seq<string>, stdin: string): (a: Answer)
    ensures !a.Run?
  {
    var ops := Operands(args);
    if ops == [] then Reply("", 0) else Again(Call(ops + Fields(stdin), ""), "")
  }

  /** `xargs` after a command that printed words: they are its arguments again,
      each once and in order. */
  lemma XargsPassesOn(args: seq<string>, words: seq<string>)
    requires Operands(args) != [] && AllFields(words)
    ensures Xargs(args, Join(words, ' ') + "\n") == Again(Call(Operands(args) + words, ""), "")
  {
    FieldsJoin(words, "\n");
  }

  /** `nohup`, `timeout`, whose first operand is a duration, and `watch`. */
  function Nohup(name: string, args: seq<string>, stdin: string): (a: Answer)
    ensures !a.Run?
  {
    var all := Operands(args);
    var ops := if name == "timeout" && |all| > 1 then all[1..] else all;
    if ops == [] then Reply("", 0) else Again(Call(ops, stdin), NohupNotice(name))
  }

  /** An applet goes straight to its handler: no assignments, no path. */
  function Busybox(args: seq<string>, stdin: string, builtins: set<string>): Answer {
    if args == [] || args[0] == "--list" then Run("busybox", args, stdin)
    else if !Applet(args[0]) then Reply(args[0] + ": applet not found\n", 127)
    else if args[0] !in builtins then Reply("", 0)
    else if args[0] == "xargs" then Xargs(args[1..], stdin)
    else Run(args[0], args[1..], stdin)
  }

  /** The handler `builtins` has for a name. */
  function Handled(name: string, args: seq<string>, stdin: string, who: Who, builtins: set<string>): Answer {
    match name
    case "sudo" => Sudo(args, stdin, who)
    case "xargs" => Xargs(args, stdin)
    case "nohup" => Nohup(name, args, stdin)
    case "timeout" => Nohup(name, args, stdin)
    case "watch" => Nohup(name, args, stdin)
    case "busybox" => Busybox(args, stdin, builtins)
    case _ => Run(name, args, stdin)
  }

  /** Arguments plus white-space fields of the input. */
  function Size(c: Call): nat {
    |c.argv| + |Fields(c.stdin)|
  }

  /** Every call back into dispatch is strictly smaller than the call that made it. */
  lemma AgainShrinks(name: string, args: seq<string>, stdin: string, who: Who, builtins: set<string>)
    ensures var a := Handled(name, args, stdin, who, builtins);
            a.Again? ==> Size(a.call) < Size(Call([name] + args, stdin))
  {
    hide Applet, Fields;
    NoFields();
  }

  lemma NoFields()
    ensures Fields("") == []
  {
  }

  /** One `runStage`, given the names that have a handler. */
  function Once(c: Call, who: Who, builtins: set<string>): (a: Answer)
    ensures a.Again? ==> Size(a.call) < Size(c)
  {
    var argv := Stripped(c.argv);
    if argv == [] then Reply("", 0)
    else if Base(argv[0]) !in builtins then Unknown(argv[0])
    else
      AgainShrinks(Base(argv[0]), argv[1..], c.stdin, who, builtins);
      Handled(Base(argv[0]), argv[1..], c.stdin, who, builtins)
  }

  /** How a call ends: the environment then, the notices in front of the output,
      what runs or is answered, and how often dispatch was entered again. */
  datatype Outcome = Outcome(env: Env, notices: string, answer: Answer, hops: nat)

  /** The whole chain of calls; it ends because `Size` falls. */
  function Settled(c: Call, env: Env, who: Who, builtins: set<string>): (o: Outcome)
    ensures !o.answer.Again?
    decreases Size(c)
  {
    var a := Once(c, who, builtins);
    var now := Assigned(c.argv, env);
    if a.Again? then
      var o := Settled(a.call, now, who, builtins);
      o.(notices := a.notice + o.notices, hops := o.hops + 1)
    else Outcome(now, "", a, 0)
  }

  /** How a handler's answer ends. */
  function Continued(a: Answer, env: Env, who: Who, builtins: set<string>): Outcome {
    if a.Again? then
      var o := Settled(a.call, env, who, builtins);
      o.(notices := a.notice + o.notices, hops := o.hops + 1)
    else Outcome(env, "", a, 0)
  }

  lemma SettledOnce(c: Call, env: Env, who: Who, builtins: set<string>)
    ensures Settled(c, env, who, builtins) == Continued(Once(c, who, builtins), Assigned(c.argv, env), who, builtins)
  {
  }

  // ----- How long a chain can be.

  lemma OnceShrinks(c: Call, who: Who, builtins: set<string>)
    ensures var a := Once(c, who, builtins); a.Again? ==> a.call.argv != [] && Size(a.call) < Size(c)
    ensures c.argv != [] ==> Size(c) > 0
  {
    hide Size, Base, Stripped, Operands, Fields, Applet;
    AtLeastItsWords(c);
  }

  lemma AtLeastItsWords(c: Call)
    ensures Size(c) >= |c.argv|
  {
  }

  /** Dispatch is entered again fewer times than the call has words, those
      waiting on its input included… */
  lemma {:induction false} HopsBound(c: Call, env: Env, who: Who, builtins: set<string>)
    requires c.argv != []
    ensures Settled(c, env, who, builtins).hops < Size(c)
    decreases Size(c)
  {
    hide Size;
    OnceShrinks(c, who, builtins);
    var a := Once(c, who, builtins);
    if a.Again? {
      HopsBound(a.call, Assigned(c.argv, env), who, builtins);
    }
  }

  /** …and root can reach that bound at every length. */
  function Sudos(n: nat): seq<string> {
    if n == 0 then ["id"] else ["sudo"] + Sudos(n - 1)
  }

  lemma {:induction false} SudosOperands(n: nat)
    ensures Operands(Sudos(n)) == Sudos(n) && |Sudos(n)| == n + 1
    ensures Sudos(n)[0] == if n == 0 then "id" else "sudo"
  {
    if n == 0 {
      assert Operands([]) == [];
      assert ["id"][1..] == [];
    } else {
      SudosOperands(n - 1);
      assert Sudos(n)[1..] == Sudos(n - 1);
    }
  }

  lemma BareName(name: string)
    requires name != "" && '/' !in name
    ensures Base(name) == name
  {
    assert TrimSlashes(name) == name;
    assert LastSlash(name) == -1;
    assert name[0..] == name;
  }

  lemma {:induction false} BoundReached(n: nat, env: Env, user: string, builtins: set<string>)
    requires "sudo" in builtins && "id" in builtins
    ensures var o := Settled(Call(Sudos(n), ""), env, Who(true, user), builtins);
            o.hops == n == Size(Call(Sudos(n), "")) - 1 && o.answer == Run("id", [], "") && o.env == env
  {
    hide Base, IndexOf, Applet, Busybox, Nohup, Xargs, Settled, Size, Sudos, Once;
    SudosOperands(n);
    SudosOnce(n, env, user, builtins);
    SettledOnce(Call(Sudos(n), ""), env, Who(true, user), builtins);
    SudosSize(n);
    if n > 0 {
      BoundReached(n - 1, env, user, builtins);
    }
  }

  lemma SudosSize(n: nat)
    ensures Size(Call(Sudos(n), "")) == n + 1
  {
    SudosOperands(n);
  }

  /** One turn of dispatch takes one `sudo` off. */
  lemma SudosOnce(n: nat, env: Env, user: string, builtins: set<string>)
    requires "sudo" in builtins && "id" in builtins
    ensures Assigned(Sudos(n), env) == env
    ensures Once(Call(Sudos(n), ""), Who(true, user), builtins) ==
      if n == 0 then Run("id", [], "") else Again(Call(Sudos(n - 1), ""), "")
  {
    hide Base, IndexOf, Applet, Busybox, Nohup, Xargs, Size;
    SudosOperands(n);
    var first := Sudos(n)[0];
    assert !Assignment(first);
    BareName(first);
    assert Stripped(Sudos(n)) == Sudos(n);
    if n == 0 {
      assert Sudos(0)[1..] == [];
    } else {
      assert Sudos(n)[1..] == Sudos(n - 1);
      SudosOperands(n - 1);
    }
  }

  // ----- Where the words that reach a command come from.

  /** `a` is `b` with some elements left out. */
  ghost predicate Subsequence<T(!new)>(a: seq<T>, b: seq<T>)
    decreases |b|
  {
    if b == [] then a == []
    else Subsequence(a, b[1..]) || (a != [] && a[0] == b[0] && Subsequence(a[1..], b[1..]))
  }

  lemma {:induction false} SubsequenceSame<T(!new)>(a: seq<T>)
    ensures Subsequence(a, a)
  {
    if a != [] {
      SubsequenceSame(a[1..]);
    }
  }

  lemma {:induction false} SubsequenceTail<T(!new)>(a: seq<T>, b: seq<T>)
    requires Subsequence(a, b) && a != []
    ensures Subsequence(a[1..], b)
    decreases |b|
  {
    if Subsequence(a, b[1..]) {
      SubsequenceTail(a, b[1..]);
    }
  }

  lemma {:induction false} SubsequenceTrans<T(!new)>(a: seq<T>, b: seq<T>, c: seq<T>)
    requires Subsequence(a, b) && Subsequence(b, c)
    ensures Subsequence(a, c)
    decreases |c|
  {
    if c != [] {
      if Subsequence(b, c[1..]) {
        SubsequenceTrans(a, b, c[1..]);
      } else if Subsequence(a, b[1..]) {
        SubsequenceTrans(a, b[1..], c[1..]);
      } else {
        SubsequenceTrans(a[1..], b[1..], c[1..]);
      }
    }
  }

  lemma {:induction false} SubsequenceAppend<T(!new)>(a: seq<T>, b: seq<T>, more: seq<T>)
    requires Subsequence(a, b)
    ensures Subsequence(a + more, b + more)
    decreases |b|
  {
    if b == [] {
      assert a + more == more == b + more;
      SubsequenceSame(more);
    } else {
      assert (b + more)[1..] == b[1..] + more;
      if Subsequence(a, b[1..]) {
        SubsequenceAppend(a, b[1..], more);
      } else {
        SubsequenceAppend(a[1..], b[1..], more);
        assert (a + more)[1..] == a[1..] + more;
      }
    }
  }

  lemma {:induction false} OperandsKept(args: seq<string>)
    ensures Subsequence(Operands(args), args)
  {
    if args != [] {
      OperandsKept(args[1..]);
      var rest := Operands(args[1..]);
      assert Operands(args) == if Operand(args[0]) then [args[0]] + rest else rest;
      assert ([args[0]] + rest)[1..] == rest;
    }
  }

  lemma {:induction false} StrippedKept(argv: seq<string>)
    ensures Subsequence(Stripped(argv), argv)
  {
    SubsequenceSame(argv);
    if argv != [] && Assignment(argv[0]) {
      StrippedKept(argv[1..]);
    }
  }

  /** The words of a call, those waiting on its input included. */
  function Words(c: Call): seq<string> {
    c.argv + Fields(c.stdin)
  }

  /** What a command that runs was given. */
  function Given(a: Answer): seq<string>
    requires a.Run? || a.Again?
  {
    if a.Run? then Words(Call(a.args, a.stdin)) else Words(a.call)
  }

  lemma OperandsOnInput(args: seq<string>, stdin: string)
    ensures Subsequence(Operands(args) + Fields(stdin), args + Fields(stdin))
    ensures Operands(args) != [] ==> Subsequence(Operands(args)[1..] + Fields(stdin), args + Fields(stdin))
  {
    var f := Fields(stdin);
    OperandsKept(args);
    SubsequenceAppend(Operands(args), args, f);
    if Operands(args) != [] {
      SubsequenceTail(Operands(args), args);
      SubsequenceAppend(Operands(args)[1..], args, f);
    }
  }

  lemma XargsKeeps(args: seq<string>, stdin: string)
    ensures var a := Xargs(args, stdin); a.Again? ==> Subsequence(Given(a), args + Fields(stdin))
  {
    hide Subsequence;
    OperandsOnInput(args, stdin);
    var ops := Operands(args) + Fields(stdin);
    assert ops + Fields("") == ops;
  }

  lemma NohupKeeps(name: string, args: seq<string>, stdin: string)
    ensures var a := Nohup(name, args, stdin); a.Again? ==> Subsequence(Given(a), args + Fields(stdin))
  {
    hide Subsequence, Operands, Fields;
    OperandsOnInput(args, stdin);
  }

  lemma BusyboxKeeps(args: seq<string>, stdin: string, builtins: set<string>)
    ensures var a := Busybox(args, stdin, builtins);
            a.Run? || a.Again? ==> Subsequence(Given(a), args + Fields(stdin))
  {
    hide Subsequence, Operands, Fields, Applet, Xargs;
    SubsequenceSame(args + Fields(stdin));
    if args != [] {
      XargsKeeps(args[1..], stdin);
      TailOnInput(args, stdin);
      if Xargs(args[1..], stdin).Again? {
        SubsequenceTrans(Given(Xargs(args[1..], stdin)), args[1..] + Fields(stdin), args + Fields(stdin));
      }
    }
  }

  lemma HandledKeeps(name: string, args: seq<string>, stdin: string, who: Who, builtins: set<string>)
    ensures var a := Handled(name, args, stdin, who, builtins);
            a.Run? || a.Again? ==> Subsequence(Given(a), args + Fields(stdin))
  {
    hide Subsequence, Operands, Fields, Xargs, Nohup, Busybox;
    OperandsOnInput(args, stdin);
    XargsKeeps(args, stdin);
    NohupKeeps(name, args, stdin);
    BusyboxKeeps(args, stdin, builtins);
    SubsequenceSame(args + Fields(stdin));
  }

  lemma TailOnInput(args: seq<string>, stdin: string)
    requires args != []
    ensures Subsequence(args[1..] + Fields(stdin), args + Fields(stdin))
  {
    SubsequenceSame(args);
    SubsequenceTail(args, args);
    SubsequenceAppend(args[1..], args, Fields(stdin));
  }

  lemma OnceKeeps(c: Call, who: Who, builtins: set<string>)
    ensures var a := Once(c, who, builtins);
            a.Run? || a.Again? ==> Subsequence(Given(a), Words(c))
  {
    hide Subsequence, Fields, Base, Given, Handled;
    var a := Once(c, who, builtins);
    var argv, f := Stripped(c.argv), Fields(c.stdin);
    if a.Run? || a.Again? {
      HandledKeeps(Base(argv[0]), argv[1..], c.stdin, who, builtins);
      TailOnInput(argv, c.stdin);
      StrippedKept(c.argv);
      SubsequenceAppend(argv, c.argv, f);
      SubsequenceTrans(argv[1..] + f, argv + f, Words(c));
      SubsequenceTrans(Given(a), argv[1..] + f, Words(c));
    }
  }

  lemma GivenAgain(a: Answer)
    requires a.Again?
    ensures Given(a) == Words(a.call)
  {
  }

  /** However many times dispatch is entered again, no word is made up, repeated
      or reordered: what the command at the end is given, as arguments and then
      on its input, is the typed words followed by the piped ones with some left
      out. */
  lemma {:induction false} NothingInvented(c: Call, env: Env, who: Who, builtins: set<string>)
    ensures var a := Settled(c, env, who, builtins).answer;
            a.Run? ==> Subsequence(Given(a), Words(c))
    decreases Size(c)
  {
    hide Subsequence, Once, Given, Words;
    OnceKeeps(c, who, builtins);
    var a := Once(c, who, builtins);
    if a.Again? {
      var now := Assigned(c.argv, env);
      NothingInvented(a.call, now, who, builtins);
      var o := Settled(a.call, now, who, builtins).answer;
      if o.Run? {
        GivenAgain(a);
        SubsequenceTrans(Given(o), Words(a.call), Words(c));
      }
    }
  }

  lemma OnceEndsOutside(c: Call, who: Who, builtins: set<string>)
    ensures var a := Once(c, who, builtins);
            a.Run? ==> a.name in builtins
                       && (a.name in CALLERS ==> a.name == "busybox" && (a.args == [] || a.args[0] == "--list"))
  {
    hide Base, Fields, Stripped, Applet;
    var a := Once(c, who, builtins);
    var argv := Stripped(c.argv);
    if a.Run? {
      HandledEndsOutside(Base(argv[0]), argv[1..], c.stdin, who, builtins);
    }
  }

  lemma HandledEndsOutside(name: string, args: seq<string>, stdin: string, who: Who, builtins: set<string>)
    requires name in builtins
    ensures var a := Handled(name, args, stdin, who, builtins);
            a.Run? ==> a.name in builtins
                       && (a.name in CALLERS ==> a.name == "busybox" && (a.args == [] || a.args[0] == "--list"))
  {
    hide Fields, Operands, Applet;
  }

  /** What runs at the end has a handler, and is none of the commands that call
      back into dispatch. */
  lemma {:induction false} EndsOutside(c: Call, env: Env, who: Who, builtins: set<string>)
    ensures var a := Settled(c, env, who, builtins).answer;
            a.Run? ==> a.name in builtins
                       && (a.name in CALLERS ==> a.name == "busybox" && (a.args == [] || a.args[0] == "--list"))
    decreases Size(c)
  {
    hide Once;
    OnceEndsOutside(c, who, builtins);
    var a := Once(c, who, builtins);
    if a.Again? {
      EndsOutside(a.call, Assigned(c.argv, env), who, builtins);
    }
  }

  // ----- What each of the commands that call back does, and leading assignments.

  /** A word that names a command: no slash, and no assignment. */
  predicate CommandName(word: string) {
    word != "" && '/' !in word && '=' !in word
  }

  /** Words none of which looks like an option. */
  ghost predicate NoOptions(words: seq<string>) {
    forall w :: w in words ==> w == "" || w[0] != '-'
  }

  lemma {:induction false} NoOptionsKept(words: seq<string>)
    requires NoOptions(words)
    ensures Operands(words) == words
  {
    if words != [] {
      NoOptionsKept(words[1..]);
      assert words[0] in words;
    }
  }

  lemma NotAssignment(word: string)
    requires CommandName(word)
    ensures !Assignment(word) && Base(word) == word
  {
    BareName(word);
  }

  /** A call of a command by name goes to its handler, or is answered as unknown. */
  lemma OnceNamed(name: string, args: seq<string>, stdin: string, who: Who, builtins: set<string>, env: Env)
    requires CommandName(name)
    ensures Once(Call([name] + args, stdin), who, builtins) ==
      if name in builtins then Handled(name, args, stdin, who, builtins) else Unknown(name)
    ensures Assigned([name] + args, env) == env
  {
    hide Handled, Base, Assignment;
    NotAssignment(name);
    assert ([name] + args)[0] == name && ([name] + args)[1..] == args;
    hide Size;
  }

  lemma SettledNamed(name: string, args: seq<string>, stdin: string, env: Env, who: Who, builtins: set<string>)
    requires CommandName(name) && name in builtins
    ensures Settled(Call([name] + args, stdin), env, who, builtins)
         == Continued(Handled(name, args, stdin, who, builtins), env, who, builtins)
  {
    hide Handled, Once, Continued, Settled;
    SettledOnce(Call([name] + args, stdin), env, who, builtins);
    OnceNamed(name, args, stdin, who, builtins, env);
  }

  /** An outcome one call further in, behind a notice. */
  function Behind(notice: string, o: Outcome): Outcome {
    o.(notices := notice + o.notices, hops := o.hops + 1)
  }

  /** `sudo` runs its operands for root, with their input; anyone else is refused, and
      without operands it says how it is used. */
  lemma SudoSays(words: seq<string>, stdin: string, env: Env, who: Who, builtins: set<string>)
    requires "sudo" in builtins && NoOptions(words)
    ensures Settled(Call(["sudo"] + words, stdin), env, who, builtins) ==
      if words == [] then Outcome(env, "", Reply("usage: sudo -h | -K | -k | -V\n", 1), 0)
      else if who.root then Behind("", Settled(Call(words, stdin), env, who, builtins))
      else Outcome(env, "", Reply("[sudo] password for " + who.user + ": \nsudo: 1 incorrect password attempt\n", 1), 0)
  {
    hide Settled, Base, Operands;
    SettledNamed("sudo", words, stdin, env, who, builtins);
    NoOptionsKept(words);
  }

  /** `xargs` runs its operands with the fields of its input behind them, and nothing
      on their input. */
  lemma XargsSays(words: seq<string>, stdin: string, env: Env, who: Who, builtins: set<string>)
    requires "xargs" in builtins && NoOptions(words) && words != []
    ensures Settled(Call(["xargs"] + words, stdin), env, who, builtins) ==
      Behind("", Settled(Call(words + Fields(stdin), ""), env, who, builtins))
  {
    hide Settled, Base, Operands, Fields;
    SettledNamed("xargs", words, stdin, env, who, builtins);
    NoOptionsKept(words);
  }

  /** `nohup` runs its operands with its notice in front, and `watch` without one. */
  lemma NohupSays(words: seq<string>, stdin: string, env: Env, who: Who, builtins: set<string>)
    requires NoOptions(words) && words != [] && "nohup" in builtins
    ensures Settled(Call(["nohup"] + words, stdin), env, who, builtins) ==
      Behind("nohup: ignoring input and appending output to 'nohup.out'\n", Settled(Call(words, stdin), env, who, builtins))
  {
    hide Settled, Base, Operands;
    NoOptionsKept(words);
    SettledNamed("nohup", words, stdin, env, who, builtins);
  }

  lemma WatchSays(words: seq<string>, stdin: string, env: Env, who: Who, builtins: set<string>)
    requires NoOptions(words) && words != [] && "watch" in builtins
    ensures Settled(Call(["watch"] + words, stdin), env, who, builtins) ==
      Behind("", Settled(Call(words, stdin), env, who, builtins))
  {
    hide Settled, Base, Operands;
    NoOptionsKept(words);
    SettledNamed("watch", words, stdin, env, who, builtins);
  }

  /** `timeout` drops the duration and runs the rest. */
  lemma TimeoutSays(duration: string, words: seq<string>, stdin: string, env: Env, who: Who, builtins: set<string>)
    requires NoOptions([duration] + words) && words != [] && "timeout" in builtins
    ensures Settled(Call(["timeout", duration] + words, stdin), env, who, builtins) ==
      Behind("", Settled(Call(words, stdin), env, who, builtins))
  {
    hide Settled, Base, Operands;
    assert ["timeout", duration] + words == ["timeout"] + ([duration] + words);
    NoOptionsKept([duration] + words);
    SettledNamed("timeout", [duration] + words, stdin, env, who, builtins);
    assert ([duration] + words)[1..] == words;
  }

  /** `busybox` runs an applet of its own table with the words as they are, and has
      no such applet otherwise. */
  lemma BusyboxSays(applet: string, args: seq<string>, stdin: string, env: Env, who: Who, builtins: set<string>)
    requires "busybox" in builtins && applet != "--list" && applet != "xargs"
    ensures Settled(Call(["busybox", applet] + args, stdin), env, who, builtins) ==
      Outcome(env, "",
              if !Applet(applet) then Reply(applet + ": applet not found\n", 127)
              else if applet in builtins then Run(applet, args, stdin) else Reply("", 0), 0)
  {
    hide Settled, Base, Applet;
    assert ["busybox", applet] + args == ["busybox"] + ([applet] + args);
    assert ([applet] + args)[0] == applet && ([applet] + args)[1..] == args;
    SettledNamed("busybox", [applet] + args, stdin, env, who, builtins);
  }

  /** Any other command runs with its words and its input; a name without a handler
      is unknown. */
  lemma OthersRun(name: string, args: seq<string>, stdin: string, env: Env, who: Who, builtins: set<string>)
    requires CommandName(name) && name !in CALLERS
    ensures Settled(Call([name] + args, stdin), env, who, builtins) ==
      Outcome(env, "", if name in builtins then Run(name, args, stdin) else Unknown(name), 0)
  {
    hide Settled, Base, Once, Assigned;
    SettledOnce(Call([name] + args, stdin), env, who, builtins);
    OnceNamed(name, args, stdin, who, builtins, env);
    assert name != CALLERS[0] && name != CALLERS[1] && name != CALLERS[2] && name != CALLERS[3] && name != CALLERS[4]
      && name != CALLERS[5];
  }

  lemma {:induction false} IndexOfFirst(name: string, c: char, rest: string)
    requires c !in name
    ensures IndexOf(name + [c] + rest, c) == |name|
  {
    if name != "" {
      assert (name + [c] + rest)[1..] == name[1..] + [c] + rest;
      IndexOfFirst(name[1..], c, rest);
    }
  }

  /** `NAME=value` in front of a command sets that variable, to all that follows the
      first `=`, and the rest runs with it. */
  lemma AssignmentSays(name: string, value: string, rest: seq<string>, stdin: string, env: Env, who: Who, builtins: set<string>)
    requires '=' !in name && '/' !in name && ' ' !in name && (name == "" || name[0] != '-')
    ensures Settled(Call([name + "=" + value] + rest, stdin), env, who, builtins)
         == Settled(Call(rest, stdin), env[name := value], who, builtins)
  {
    hide Settled, Handled, Base, Size, Assignment, Assign;
    var word := name + "=" + value;
    AssignmentIs(name, value, env);
    assert ([word] + rest)[0] == word && ([word] + rest)[1..] == rest;
    SettledOnce(Call([word] + rest, stdin), env, who, builtins);
    SettledOnce(Call(rest, stdin), env[name := value], who, builtins);
  }

  lemma AssignmentIs(name: string, value: string, env: Env)
    requires '=' !in name && '/' !in name && ' ' !in name && (name == "" || name[0] != '-')
    ensures Assignment(name + "=" + value) && '=' in name + "=" + value && Assign(env, name + "=" + value) == env[name := value]
  {
    var word := name + "=" + value;
    IndexOfFirst(name, '=', value);
    assert word[|name|] == '=' && word[..|name|] == name && word[|name| + 1..] == value;
    hide IndexOf;
  }

  // ----- Fields, however they are spaced.

  /** Tab, line feed, vertical tab, form feed, carriage return and blank. */
  lemma SpaceIs(c: char)
    ensures Space(c) <==> 9 <= c as int <= 13 || c as int == 32
  {
  }

  ghost predicate Blank(gap: string) {
    forall i :: 0 <= i < |gap| ==> Space(gap[i])
  }

  /** Words with these gaps before the first, between them and after the last. */
  function Spaced(words: seq<string>, gaps: seq<string>): string
    requires |gaps| == |words| + 1
  {
    gaps[0] + if words == [] then "" else words[0] + Spaced(words[1..], gaps[1..])
  }

  lemma {:induction false} FieldsAfterGap(gap: string, rest: string)
    requires Blank(gap)
    ensures Fields(gap + rest) == Fields(rest)
  {
    if gap == "" {
      assert gap + rest == rest;
    } else {
      assert (gap + rest)[1..] == gap[1..] + rest;
      FieldsAfterGap(gap[1..], rest);
      assert [] + Fields(rest) == Fields(rest);
    }
  }

  /** Whatever white space is before, between and after words, the fields are the
      words. */
  lemma {:induction false} FieldsSpaced(words: seq<string>, gaps: seq<string>)
    requires |gaps| == |words| + 1 && AllFields(words) && forall i :: 0 <= i < |gaps| ==> Blank(gaps[i])
    requires forall i :: 0 < i < |words| ==> gaps[i] != ""
    ensures Fields(Spaced(words, gaps)) == words
    decreases |words|
  {
    hide Fields;
    if words == [] {
      FieldsAfterGap(gaps[0], "");
      NoFields();
      assert gaps[0] + "" == gaps[0];
    } else {
      var w, rest := words[0], Spaced(words[1..], gaps[1..]);
      FieldsAfterGap(gaps[0], w + rest);
      FieldsSpaced(words[1..], gaps[1..]);
      FieldFirst(w, gaps[1], rest, |words| == 1);
    }
  }

  /** A word at the front is the first field when blanks or nothing follow it. */
  lemma FieldFirst(w: string, gap: string, rest: string, last: bool)
    requires Field(w) && Blank(gap) && gap <= rest && (gap != "" || last) && (last ==> rest == gap)
    ensures Fields(w + rest) == [w] + Fields(rest)
  {
    hide Space;
    FieldsOfWord("", w, rest);
    assert "" + w == w;
    if rest != "" {
      assert gap[0] == rest[0] && Space(rest[0]);
    }
  }
}
