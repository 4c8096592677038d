/** The `echo` and `printf` of the emulated shell: `cmdEcho`, `unescape` and
    `expand` (node/internal/shell/commands.go). Texts hold one character per byte. */
module EchoCommand {
  import opened Basics
  import opened Text
  import opened Dispatch

  // ----- Escapes.

  /** The value of a hexadecimal digit, or 16. */
  function Digit(c: char): (d: nat)
    ensures d <= 16
  {
    if '0' <= c <= '9' then c as int - '0' as int
    else if 'a' <= c <= 'f' then c as int - 'a' as int + 10
    else if 'A' <= c <= 'F' then c as int - 'A' as int + 10
    else 16
  }

  /** What a letter after a backslash stands for, apart from `x`. */
  function Meaning(c: char): string {
    match c
    case 'n' => "\n"
    case 't' => "\t"
    case 'r' => "\r"
    case '0' => "\0"
    case 'a' => "\U{07}"
    case 'b' => "\U{08}"
    case 'f' => "\U{0C}"
    case 'v' => "\U{0B}"
    case '\\' => "\\"
    case _ => ['\\', c]
  }

  /** `\x` with two hexadecimal digits after it. */
  predicate HexAt(s: string) {
    |s| >= 4 && s[0] == '\\' && s[1] == 'x' && Digit(s[2]) < 16 && Digit(s[3]) < 16
  }

  /** What the front of a non-empty text stands for, and how many characters it takes. */
  function Unit(s: string): (u: (string, nat))
    requires s != ""
    ensures 1 <= u.1 <= |s|
  {
    if |s| < 2 || s[0] != '\\' then ([s[0]], 1)
    else if HexAt(s) then ([(16 * Digit(s[2]) + Digit(s[3])) as char], 4)
    else if s[1] == 'x' then ("\\x", 2)
    else (Meaning(s[1]), 2)
  }

  function Unescaped(s: string): string {
    if s == "" then "" else Unit(s).0 + Unescaped(s[Unit(s).1..])
  }

  /** The loop of `unescape`. */
  method Unescape(s: string) returns (b: string)
    ensures b == Unescaped(s)
  {
    hide Unescaped, Meaning, Digit;
    b := "";
    var i := 0;
    assert s[0..] == s;
    while i < |s|
      invariant i <= |s| && Unescaped(s) == b + Unescaped(s[i..])
    {
      ghost var before, start, u := b, i, Unit(s[i..]);
      UnescapeNext(s, i);
      if s[i] != '\\' || i + 1 >= |s| {
        b := b + [s[i]];
      } else {
        i := i + 1;
        if s[i] == 'x' {
          if i + 2 < |s| && Digit(s[i + 1]) < 16 && Digit(s[i + 2]) < 16 {
            b := b + [(16 * Digit(s[i + 1]) + Digit(s[i + 2])) as char];
            i := i + 2;
          } else {
            b := b + "\\x";
          }
        } else {
          b := b + Meaning(s[i]);
        }
      }
      i := i + 1;
      assert b == before + u.0 && i == start + u.1;
    }
    UnescapeEmpty();
    assert s[i..] == "" && b + "" == b;
  }

  lemma UnescapeNext(s: string, i: nat)
    requires i < |s|
    ensures var u := Unit(s[i..]); Unescaped(s[i..]) == u.0 + Unescaped(s[i + u.1..])
  {
    assert s[i..][Unit(s[i..]).1..] == s[i + Unit(s[i..]).1..];
  }

  // ----- Variables.

  predicate NameChar(c: char) {
    c == '_' || 'A' <= c <= 'Z' || 'a' <= c <= 'z' || '0' <= c <= '9'
  }

  function NameLength(s: string): (n: nat)
    ensures n <= |s|
  {
    if s == "" || !NameChar(s[0]) then 0 else 1 + NameLength(s[1..])
  }

  /** An absent variable is empty. */
  function Value(env: Env, name: string): string {
    if name in env then env[name] else ""
  }

  function Decimal(n: nat): string {
    (if n < 10 then "" else Decimal(n / 10)) + [(n % 10 + '0' as int) as char]
  }

  /** What the front of a non-empty text expands to, and how many characters it takes. */
  function Reference(s: string, env: Env, code: nat): (r: (string, nat))
    requires s != ""
    ensures 1 <= r.1 <= |s|
  {
    if s[0] != '$' || |s| == 1 then ([s[0]], 1)
    else if s[1] == '{' then
      var end := IndexOf(s[1..], '}');
      if end == |s| - 1 then ("${", 2) else (Value(env, s[2..1 + end]), end + 2)
    else if s[1] == '?' then (Decimal(code), 2)
    else
      var n := NameLength(s[1..]);
      (Value(env, s[1..1 + n]), 1 + n)
  }

  function Expanded(s: string, env: Env, code: nat): string {
    if s == "" then ""
    else
      var r := Reference(s, env, code);
      r.0 + Expanded(s[r.1..], env, code)
  }

  lemma ExpandNext(s: string, i: nat, env: Env, code: nat)
    requires i < |s|
    ensures var r := Reference(s[i..], env, code);
            Expanded(s[i..], env, code) == r.0 + Expanded(s[i + r.1..], env, code)
  {
    assert s[i..][Reference(s[i..], env, code).1..] == s[i + Reference(s[i..], env, code).1..];
  }

  lemma {:induction false} ExpandNothing(s: string, env: Env, code: nat)
    requires '$' !in s
    ensures Expanded(s, env, code) == s
  {
    if s != "" {
      ExpandNothing(s[1..], env, code);
    }
  }

  // ----- What expansion means, for text written as plain parts and references.

  datatype Part = Plain(text: string) | Variable(name: string) | Braced(name: string) | LastCode

  function Spelled(p: Part): string {
    match p
    case Plain(text) => text
    case Variable(name) => "$" + name
    case Braced(name) => "${" + name + "}"
    case LastCode => "$?"
  }

  function Denoted(p: Part, env: Env, code: nat): string {
    match p
    case Plain(text) => text
    case Variable(name) => Value(env, name)
    case Braced(name) => Value(env, name)
    case LastCode => Decimal(code)
  }

  function SpelledAll(ps: seq<Part>): string {
    if ps == [] then "" else Spelled(ps[0]) + SpelledAll(ps[1..])
  }

  function DenotedAll(ps: seq<Part>, env: Env, code: nat): string {
    if ps == [] then "" else Denoted(ps[0], env, code) + DenotedAll(ps[1..], env, code)
  }

  /** Plain parts hold no `$`, names are what the notation can spell, and an
      unbraced name is not run into by what follows. */
  predicate Readable(ps: seq<Part>) {
    ps == [] || (ReadableBefore(ps[0], SpelledAll(ps[1..])) && Readable(ps[1..]))
  }

  predicate ReadableBefore(p: Part, rest: string) {
    match p
    case Plain(text) => '$' !in text
    case Variable(name) => name != "" && NameLength(name) == |name| && (rest == "" || !NameChar(rest[0]))
    case Braced(name) => '}' !in name
    case LastCode => true
  }

  lemma ExpandChar(c: char, rest: string, env: Env, code: nat)
    requires c != '$'
    ensures Expanded([c] + rest, env, code) == [c] + Expanded(rest, env, code)
  {
    hide NameLength, IndexOf, Value, Decimal;
    assert ([c] + rest)[1..] == rest;
  }

  lemma {:induction false} ExpandPlain(text: string, rest: string, env: Env, code: nat)
    requires '$' !in text
    ensures Expanded(text + rest, env, code) == text + Expanded(rest, env, code)
  {
    hide Expanded;
    if text == "" {
      assert text + rest == rest;
    } else {
      assert text + rest == [text[0]] + (text[1..] + rest);
      ExpandChar(text[0], text[1..] + rest, env, code);
      ExpandPlain(text[1..], rest, env, code);
      assert [text[0]] + text[1..] == text;
    }
  }

  lemma {:induction false} NameLengthStops(name: string, rest: string)
    requires NameLength(name) == |name| && (rest == "" || !NameChar(rest[0]))
    ensures NameLength(name + rest) == |name| && (name != "" ==> NameChar(name[0]))
  {
    if name == "" {
      assert name + rest == rest;
    } else {
      assert (name + rest)[1..] == name[1..] + rest;
      NameLengthStops(name[1..], rest);
    }
  }

  lemma ExpandVariable(name: string, rest: string, env: Env, code: nat)
    requires name != "" && NameLength(name) == |name| && (rest == "" || !NameChar(rest[0]))
    ensures Expanded("$" + name + rest, env, code) == Value(env, name) + Expanded(rest, env, code)
  {
    hide NameLength, IndexOf, Value;
    var s := "$" + name + rest;
    assert s[1..] == name + rest && s[1] == name[0];
    NameLengthStops(name, rest);
    assert s[1..1 + |name|] == name && s[1 + |name|..] == rest;
  }

  lemma ExpandBraced(name: string, rest: string, env: Env, code: nat)
    requires '}' !in name
    ensures Expanded("${" + name + "}" + rest, env, code) == Value(env, name) + Expanded(rest, env, code)
  {
    hide NameLength, IndexOf, Value;
    var s := "${" + name + "}" + rest;
    var braced := "{" + name;
    assert s[1..] == braced + ['}'] + rest;
    IndexOfFirst(braced, '}', rest);
    assert s[2..1 + |braced|] == name && s[|braced| + 2..] == rest;
  }

  lemma ExpandLastCode(rest: string, env: Env, code: nat)
    ensures Expanded("$?" + rest, env, code) == Decimal(code) + Expanded(rest, env, code)
  {
    hide NameLength, IndexOf, Value, Decimal;
    assert ("$?" + rest)[2..] == rest;
  }

  /** Expansion replaces each reference by its value and leaves the rest alone;
      values are not expanded again. */
  lemma {:induction false} ExpandSpelled(ps: seq<Part>, env: Env, code: nat)
    requires Readable(ps)
    ensures Expanded(SpelledAll(ps), env, code) == DenotedAll(ps, env, code)
  {
    hide Expanded, Value, Decimal, NameLength, NameChar;
    if ps == [] {
      ExpandNothing("", env, code);
    } else {
      var rest := SpelledAll(ps[1..]);
      ExpandSpelled(ps[1..], env, code);
      match ps[0]
      case Plain(text) => ExpandPlain(text, rest, env, code);
      case Variable(name) => ExpandVariable(name, rest, env, code);
      case Braced(name) => ExpandBraced(name, rest, env, code);
      case LastCode => ExpandLastCode(rest, env, code);
    }
  }

  /** The loop of `expand`. */
  method Expand(str: string, env: Env, code: nat) returns (b: string)
    ensures b == Expanded(str, env, code)
  {
    hide Expanded, Reference;
    if '$' !in str {
      ExpandNothing(str, env, code);
      return str;
    }
    b := "";
    var i := 0;
    assert str[0..] == str;
    while i < |str|
      invariant i <= |str| && Expanded(str, env, code) == b + Expanded(str[i..], env, code)
    {
      ExpandNext(str, i, env, code);
      var text;
      text, i := Substitute(str, i, env, code);
      b := b + text;
    }
    ExpandNothing("", env, code);
    assert str[i..] == "" && b + "" == b;
  }

  /** One turn of that loop. */
  method Substitute(str: string, start: nat, env: Env, code: nat) returns (text: string, i: nat)
    requires start < |str|
    ensures start < i <= |str| && (text, i - start) == Reference(str[start..], env, code)
  {
    hide NameLength, IndexOf, Value, Decimal, NameChar;
    ghost var r := str[start..];
    assert r[1..] == str[start + 1..];
    i := start + 1;
    if str[start] != '$' || i >= |str| {
      text := [str[start]];
    } else if str[i] == '{' {
      var end := IndexOf(str[i..], '}');
      if end == |str| - i {
        text, i := "${", i + 1;
      } else {
        assert r[2..1 + end] == str[i + 1..i + end];
        text, i := Value(env, str[i + 1..i + end]), i + end + 1;
      }
    } else if str[i] == '?' {
      text, i := Decimal(code), i + 1;
    } else {
      var end := NameEnd(str, i);
      assert r[1..1 + end - i] == str[i..end];
      text, i := Value(env, str[i..end]), end;
    }
  }

  method NameEnd(str: string, start: nat) returns (i: nat)
    requires start <= |str|
    ensures i == start + NameLength(str[start..])
  {
    i := start;
    while i < |str| && NameChar(str[i])
      invariant start <= i <= |str| && NameLength(str[start..]) == i - start + NameLength(str[i..])
    {
      assert str[i..][1..] == str[i + 1..];
      i := i + 1;
    }
  }

  // ----- The command.

  /** The leading flags, and the words after them. */
  datatype Options = Options(noNewline: bool, interpret: bool, words: seq<string>)

  predicate Flag(a: string) {
    a == "-n" || a == "-e" || a == "-ne" || a == "-en"
  }

  function Flags(args: seq<string>, noNewline: bool, interpret: bool): Options {
    if args == [] || !Flag(args[0]) then Options(noNewline, interpret, args)
    else Flags(args[1..], noNewline || args[0] != "-e", interpret || args[0] != "-n")
  }

  function ExpandAll(words: seq<string>, env: Env, code: nat): seq<string> {
    if words == [] then [] else [Expanded(words[0], env, code)] + ExpandAll(words[1..], env, code)
  }

  function Echoed(name: string, args: seq<string>, env: Env, code: nat): string {
    var f := Flags(args, false, name == "printf");
    var text := Join(ExpandAll(f.words, env, code), ' ');
    (if f.interpret then Unescaped(text) else text) + if f.noNewline || name == "printf" then "" else "\n"
  }

  lemma FlagsNext(args: seq<string>, i: nat, noNewline: bool, interpret: bool)
    requires i <= |args|
    ensures Flags(args[i..], noNewline, interpret) ==
      if i == |args| || !Flag(args[i]) then Options(noNewline, interpret, args[i..])
      else Flags(args[i + 1..], noNewline || args[i] != "-e", interpret || args[i] != "-n")
  {
    assert i < |args| ==> args[i..][1..] == args[i + 1..];
  }

  lemma ExpandAllNext(args: seq<string>, i: nat, env: Env, code: nat)
    requires i <= |args|
    ensures ExpandAll(args[i..], env, code) ==
      if i == |args| then [] else [Expanded(args[i], env, code)] + ExpandAll(args[i + 1..], env, code)
  {
    assert i < |args| ==> args[i..][1..] == args[i + 1..];
  }

  /** The loop of `cmdEcho` over its arguments: flags until the first word. */
  method ReadWords(args: seq<string>, env: Env, code: nat, printf: bool)
    returns (noNewline: bool, interpret: bool, parts: seq<string>)
    ensures var f := Flags(args, false, printf);
            f.noNewline == noNewline && f.interpret == interpret && ExpandAll(f.words, env, code) == parts
  {
    hide Flags, Flag, ExpandAll, Expanded;
    noNewline, interpret, parts := false, printf, [];
    ghost var f := Flags(args, false, printf);
    assert args[0..] == args;
    for i := 0 to |args|
      invariant if parts == [] then f == Flags(args[i..], noNewline, interpret)
                else f.noNewline == noNewline && f.interpret == interpret
                     && ExpandAll(f.words, env, code) == parts + ExpandAll(args[i..], env, code)
    {
      var a := args[i];
      FlagsNext(args, i, noNewline, interpret);
      ExpandAllNext(args, i, env, code);
      if |parts| == 0 && Flag(a) {
        noNewline := noNewline || a != "-e";
        interpret := interpret || a != "-n";
        continue;
      }
      var word := Expand(a, env, code);
      parts := parts + [word];
    }
    FlagsNext(args, |args|, noNewline, interpret);
    ExpandAllNext(args, |args|, env, code);
    assert parts + [] == parts;
  }

  /** `cmdEcho`. */
  method Echo(name: string, args: seq<string>, env: Env, code: nat) returns (out: string)
    ensures out == Echoed(name, args, env, code)
  {
    hide Unescaped, Join, Flags, ExpandAll;
    var noNewline, interpret, parts := ReadWords(args, env, code, name == "printf");
    out := Join(parts, ' ');
    if interpret {
      out := Unescape(out);
    }
    if !noNewline && name != "printf" {
      out := out + "\n";
    }
  }

  // ----- Bytes written as escapes come back as bytes.

  function HexDigit(d: nat): char
    requires d < 16
  {
    if d < 10 then (d + '0' as int) as char else (d - 10 + 'a' as int) as char
  }

  function HexByte(b: Byte): string {
    ['\\', 'x', HexDigit(b / 16), HexDigit(b % 16)]
  }

  function Hex(bytes: seq<Byte>): string {
    if bytes == [] then "" else HexByte(bytes[0]) + Hex(bytes[1..])
  }

  /** A text as the bytes it holds. */
  function Bytes(s: string): (b: seq<Byte>)
    ensures |b| == |s|
  {
    if s == "" then [] else [s[0] as int % 256] + Bytes(s[1..])
  }

  function FromBytes(b: seq<Byte>): (s: string)
    ensures Bytes(s) == b
  {
    if b == [] then "" else [b[0] as char] + FromBytes(b[1..])
  }

  lemma DigitOfHex(d: nat)
    requires d < 16
    ensures Digit(HexDigit(d)) == d && HexDigit(d) !in ['\'', '$', '\\'] && HexDigit(d) as int < 128
  {
  }

  lemma HexFirst(b: Byte, rest: string)
    ensures Unescaped(HexByte(b) + rest) == [b as char] + Unescaped(rest)
  {
    var s := HexByte(b) + rest;
    DigitOfHex(b / 16);
    DigitOfHex(b % 16);
    assert s[4..] == rest;
    assert 16 * (b / 16) + b % 16 == b;
  }

  /** Interpreting the escaped form of any bytes gives those bytes. */
  lemma {:induction false} UnescapeHex(bytes: seq<Byte>)
    ensures Unescaped(Hex(bytes)) == FromBytes(bytes)
  {
    hide Unescaped;
    if bytes == [] {
      UnescapeEmpty();
    } else {
      HexFirst(bytes[0], Hex(bytes[1..]));
      UnescapeHex(bytes[1..]);
    }
  }

  lemma UnescapeEmpty()
    ensures Unescaped("") == ""
  {
  }

  /** The escaped form holds nothing the shell would act on. */
  lemma {:induction false} HexSafe(bytes: seq<Byte>)
    ensures '\'' !in Hex(bytes) && '$' !in Hex(bytes) && forall i :: 0 <= i < |Hex(bytes)| ==> Hex(bytes)[i] as int < 128
  {
    if bytes != [] {
      DigitOfHex(bytes[0] / 16);
      DigitOfHex(bytes[0] % 16);
      HexSafe(bytes[1..]);
    }
  }

  /** `echo -ne` of escaped bytes prints exactly those bytes, whatever the
      environment. */
  lemma EchoHex(bytes: seq<Byte>, env: Env, code: nat)
    ensures Echoed("echo", ["-ne", Hex(bytes)], env, code) == FromBytes(bytes)
  {
    hide Unescaped, Hex, Expanded;
    var args := ["-ne", Hex(bytes)];
    HexSafe(bytes);
    HexNotFlag(bytes);
    ExpandNothing(Hex(bytes), env, code);
    UnescapeHex(bytes);
    assert args[1..] == [Hex(bytes)];
    assert [Hex(bytes)][1..] == [];
    assert ExpandAll([Hex(bytes)], env, code) == [Hex(bytes)];
    assert Flags([Hex(bytes)], true, true) == Options(true, true, [Hex(bytes)]);
    assert FromBytes(bytes) + "" == FromBytes(bytes);
  }

  lemma HexNotFlag(bytes: seq<Byte>)
    ensures Hex(bytes) !in ["-n", "-e", "-ne", "-en"]
  {
    assert bytes != [] ==> Hex(bytes)[0] == '\\';
  }

  // ----- What each escape and each flag means, spelled out.

  /** The escapes with a meaning of their own. */
  lemma UnescapeNamed(rest: string)
    ensures Unescaped("\\n" + rest) == "\n" + Unescaped(rest)
    ensures Unescaped("\\t" + rest) == "\t" + Unescaped(rest)
    ensures Unescaped("\\r" + rest) == "\r" + Unescaped(rest)
    ensures Unescaped("\\0" + rest) == "\0" + Unescaped(rest)
    ensures Unescaped("\\a" + rest) == "\U{07}" + Unescaped(rest)
    ensures Unescaped("\\b" + rest) == "\U{08}" + Unescaped(rest)
    ensures Unescaped("\\f" + rest) == "\U{0C}" + Unescaped(rest)
    ensures Unescaped("\\v" + rest) == "\U{0B}" + Unescaped(rest)
    ensures Unescaped("\\\\" + rest) == "\\" + Unescaped(rest)
  {
    hide Unescaped, Digit;
    UnescapePair('n', rest);
    UnescapePair('t', rest);
    UnescapePair('r', rest);
    UnescapePair('0', rest);
    UnescapePair('a', rest);
    UnescapePair('b', rest);
    UnescapePair('f', rest);
    UnescapePair('v', rest);
    UnescapePair('\\', rest);
  }

  lemma UnescapePair(c: char, rest: string)
    requires c != 'x'
    ensures Unescaped(['\\', c] + rest) == Meaning(c) + Unescaped(rest)
  {
    hide Meaning, Digit;
    var s := ['\\', c] + rest;
    assert s[2..] == rest && s[0] == '\\' && s[1] == c;
  }

  /** A backslash before anything else stays, and so does one at the end. */
  lemma UnescapeUnknown(c: char, rest: string)
    requires c !in "ntr0abfvx\\"
    ensures Unescaped(['\\', c] + rest) == ['\\', c] + Unescaped(rest)
    ensures Unescaped("\\") == "\\"
  {
    hide Digit;
    UnescapePair(c, rest);
    assert "\\"[1..] == "";
  }

  /** Two hexadecimal digits of either case are a byte; `\x` before anything else stays. */
  lemma UnescapeHexAt(rest: string)
    ensures Unescaped("\\x" + rest) ==
      if |rest| >= 2 && Digit(rest[0]) < 16 && Digit(rest[1]) < 16
      then [(16 * Digit(rest[0]) + Digit(rest[1])) as char] + Unescaped(rest[2..])
      else "\\x" + Unescaped(rest)
  {
    hide Digit, Meaning, Unescaped;
    var s := "\\x" + rest;
    assert s[2..] == rest && s[0] == '\\' && s[1] == 'x';
    UnescapeFirst(s);
    if |rest| >= 2 {
      assert s[2] == rest[0] && s[3] == rest[1] && s[4..] == rest[2..];
    }
  }

  lemma UnescapeFirst(s: string)
    requires s != ""
    ensures Unescaped(s) == Unit(s).0 + Unescaped(s[Unit(s).1..])
  {
  }

  /** The digits' values. */
  lemma DigitsAre(d: nat)
    requires d < 16
    ensures Digit("0123456789abcdef"[d]) == d == Digit("0123456789ABCDEF"[d])
  {
  }

  /** Text without a backslash is left alone. */
  lemma {:induction false} UnescapeNothing(s: string)
    requires '\\' !in s
    ensures Unescaped(s) == s
  {
    if s != "" {
      UnescapeNothing(s[1..]);
      assert [s[0]] + s[1..] == s;
    }
  }

  /** `-n`, `-e` or both in one word. */
  ghost predicate FlagWords(flags: seq<string>) {
    forall f :: f in flags ==> f == "-n" || f == "-e" || f == "-ne" || f == "-en"
  }

  lemma {:induction false} FlagsBefore(flags: seq<string>, words: seq<string>, noNewline: bool, interpret: bool)
    requires FlagWords(flags) && (words == [] || !Flag(words[0]))
    ensures var o := Flags(flags + words, noNewline, interpret);
            && o.words == words
            && (o.noNewline <==> noNewline || exists f :: f in flags && 'n' in f)
            && (o.interpret <==> interpret || exists f :: f in flags && 'e' in f)
    decreases |flags|
  {
    if flags == [] {
      assert flags + words == words;
    } else {
      var f := flags[0];
      assert f in flags && (flags + words)[0] == f && Flag(f);
      assert f == "-n" || f == "-e" || f == "-ne" || f == "-en";
      assert ('n' in f <==> f != "-e") && ('e' in f <==> f != "-n");
      assert (flags + words)[1..] == flags[1..] + words;
      assert forall g :: g in flags <==> g == f || g in flags[1..];
      FlagsBefore(flags[1..], words, noNewline || f != "-e", interpret || f != "-n");
    }
  }

  lemma {:induction false} ExpandAllNothing(words: seq<string>, env: Env, code: nat)
    requires forall w :: w in words ==> '$' !in w
    ensures ExpandAll(words, env, code) == words
  {
    if words != [] {
      ExpandNothing(words[0], env, code);
      ExpandAllNothing(words[1..], env, code);
    }
  }

  /** `echo` with any flags and then words without references prints the words with
      a blank between them, its escapes interpreted if some flag asks for it, and a
      newline unless some flag suppresses it. */
  lemma EchoPrints(flags: seq<string>, words: seq<string>, env: Env, code: nat)
    requires FlagWords(flags) && (words == [] || !Flag(words[0])) && forall w :: w in words ==> '$' !in w
    ensures Echoed("echo", flags + words, env, code) ==
      (if exists f :: f in flags && 'e' in f then Unescaped(Join(words, ' ')) else Join(words, ' '))
      + if exists f :: f in flags && 'n' in f then "" else "\n"
  {
    hide Flags, Unescaped, Join, ExpandAll, Flag;
    FlagsBefore(flags, words, false, false);
    ExpandAllNothing(words, env, code);
  }

  /** `printf` interprets escapes and adds no newline. */
  lemma PrintfPrints(words: seq<string>, env: Env, code: nat)
    requires (words == [] || !Flag(words[0])) && forall w :: w in words ==> '$' !in w
    ensures Echoed("printf", words, env, code) == Unescaped(Join(words, ' '))
  {
    hide Flags, Unescaped, Join, ExpandAll, Flag;
    FlagsBefore([], words, false, true);
    assert [] + words == words;
    ExpandAllNothing(words, env, code);
    assert Unescaped(Join(words, ' ')) + "" == Unescaped(Join(words, ' '));
  }

  /** Decimal digits, as the last exit code is written. */
  lemma {:induction false} DecimalReads(n: nat)
    ensures Decimal(n) != "" && (forall i :: 0 <= i < |Decimal(n)| ==> '0' <= Decimal(n)[i] <= '9') && Read10(Decimal(n)) == n
  {
    if n >= 10 {
      DecimalReads(n / 10);
    }
    var front, c := if n < 10 then "" else Decimal(n / 10), (n % 10 + '0' as int) as char;
    assert Decimal(n) == front + [c];
    assert Decimal(n)[..|front|] == front;
  }

  /** The number that decimal digits stand for. */
  function Read10(s: string): int {
    if s == "" then 0 else 10 * Read10(s[..|s| - 1]) + (s[|s| - 1] as int - '0' as int)
  }

  /** A name is letters, digits and underscores. */
  lemma {:induction false} NamesAre(name: string)
    ensures NameLength(name) == |name| <==>
      forall i :: 0 <= i < |name| ==>
        'a' <= name[i] <= 'z' || 'A' <= name[i] <= 'Z' || '0' <= name[i] <= '9' || name[i] == '_'
  {
    if name != "" {
      NamesAre(name[1..]);
      assert forall i :: 0 < i < |name| ==> name[i] == name[1..][i - 1];
      assert forall i :: 0 <= i < |name| - 1 ==> name[1..][i] == name[i + 1];
    }
  }
}
