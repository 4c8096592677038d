/** Splitting a command line into tokens (`tokenize` in node/internal/shell/parser.go). */
module Tokenizer {
  import opened Basics

  datatype Token = Token(text: string, quoted: bool)

  /** `unicode.IsSpace`. */
  predicate IsSpace(c: char) {
    var n := c as int;
    9 <= n <= 13 || n == 0x20 || n == 0x85 || n == 0xA0 || n == 0x1680 || 0x2000 <= n <= 0x200A ||
    n == 0x2028 || n == 0x2029 || n == 0x202F || n == 0x205F || n == 0x3000
  }

  /** The word under construction, if any. */
  type Partial = Option<Token>

  function Emit(w: Partial): seq<Token> {
    if w.Some? then [w.value] else []
  }

  function Extend(w: Partial, text: string): Partial {
    if w.Some? then Some(w.value.(text := w.value.text + text)) else Some(Token(text, false))
  }

  function ExtendQuoted(w: Partial, text: string): Partial {
    Some(Token((if w.Some? then w.value.text else "") + text, true))
  }

  function Op(text: string): Token {
    Token(text, false)
  }

  /** How many characters come before the closing single quote, or the end. */
  function SingleLength(r: string): (n: nat)
    ensures n <= |r|
  {
    if r == "" || r[0] == '\'' then 0 else 1 + SingleLength(r[1..])
  }

  /** The contents of a double-quoted part and how many characters it takes, up
      to but excluding the closing quote. */
  function Double(r: string): (d: (string, nat))
    ensures d.1 <= |r|
  {
    if r == "" || r[0] == '"' then ("", 0)
    else if r[0] == '\\' && |r| > 1 then
      var d := Double(r[2..]);
      ([r[1]] + d.0, 2 + d.1)
    else
      var d := Double(r[1..]);
      ([r[0]] + d.0, 1 + d.1)
  }

  /** What the scanner does at the front of a non-empty rest: the tokens it
      emits, the word then under construction, and the characters it takes. */
  datatype Move = Move(emitted: seq<Token>, word: Partial, taken: nat)

  function Next(r: string, w: Partial): (m: Move)
    requires r != ""
    ensures 1 <= m.taken <= |r|
  {
    var c := r[0];
    if c == '\\' && |r| > 1 then Move([], Extend(w, [r[1]]), 2)
    else if c == '\'' then
      var n := SingleLength(r[1..]);
      Move([], ExtendQuoted(w, r[1..][..n]), Min(n + 2, |r|))
    else if c == '"' then
      var d := Double(r[1..]);
      Move([], ExtendQuoted(w, d.0), Min(d.1 + 2, |r|))
    else if IsSpace(c) then Move(Emit(w), None, 1)
    else if c == '|' || c == '&' || c == '>' then
      if |r| > 1 && r[1] == c then Move(Emit(w) + [Op([c, c])], None, 2) else Move(Emit(w) + [Op([c])], None, 1)
    else if c == ';' || c == '<' then Move(Emit(w) + [Op([c])], None, 1)
    else Move([], Extend(w, [c]), 1)
  }

  /** The tokens of what is left of a line, after the word begun so far. */
  function Scan(r: string, w: Partial): seq<Token>
    decreases |r|
  {
    if r == "" then Emit(w) else
      var m := Next(r, w);
      m.emitted + Scan(r[m.taken..], m.word)
  }

  function Tokens(line: string): seq<Token> {
    Scan(line, None)
  }

  method ScanSingle(s: string, start: nat) returns (text: string, i: nat)
    requires start <= |s|
    ensures i == start + SingleLength(s[start..]) && text == s[start..i]
  {
    text, i := "", start;
    while i < |s| && s[i] != '\''
      invariant start <= i <= |s| && text == s[start..i]
      invariant SingleLength(s[start..]) == i - start + SingleLength(s[i..])
    {
      assert s[i..][1..] == s[i + 1..];
      text := text + [s[i]];
      i := i + 1;
    }
  }

  method ScanDouble(s: string, start: nat) returns (text: string, i: nat)
    requires start <= |s|
    ensures start <= i <= |s| && text == Double(s[start..]).0 && i - start == Double(s[start..]).1
  {
    hide Double;
    text, i := "", start;
    while i < |s| && s[i] != '"'
      invariant start <= i <= |s|
      invariant Double(s[start..]).0 == text + Double(s[i..]).0
      invariant Double(s[start..]).1 == i - start + Double(s[i..]).1
    {
      DoubleNext(s, i);
      if s[i] == '\\' && i + 1 < |s| {
        i := i + 1;
      }
      text := text + [s[i]];
      i := i + 1;
    }
    DoubleNext(s, i);
  }

  lemma DoubleNext(s: string, i: nat)
    requires i <= |s|
    ensures if i == |s| || s[i] == '"' then Double(s[i..]) == ("", 0)
            else
              var j := if s[i] == '\\' && i + 1 < |s| then i + 1 else i;
              var d := Double(s[j + 1..]);
              Double(s[i..]) == ([s[j]] + d.0, j + 1 - i + d.1)
  {
    if i < |s| {
      assert s[i..][1..] == s[i + 1..];
      assert i + 1 < |s| ==> s[i..][2..] == s[i + 2..];
    }
  }

  /** The scanning loop of `tokenize`. */
  method Tokenize(s: string) returns (out: seq<Token>)
    ensures out == Tokens(s)
  {
    hide Scan, Next, Emit;
    out := [];
    var cur: Partial := None;
    var i := 0;
    assert s[0..] == s;
    while i < |s|
      invariant i <= |s| && Tokens(s) == out + Scan(s[i..], cur)
    {
      ScanNext(s, i, cur);
      var emitted;
      emitted, cur, i := ScanOne(s, i, cur);
      out := out + emitted;
    }
    assert s[i..] == "";
    ScanEnd(cur);
    out := out + Emit(cur);
  }

  /** One turn of that loop. */
  method ScanOne(s: string, start: nat, word: Partial) returns (out: seq<Token>, cur: Partial, i: nat)
    requires start < |s|
    ensures start < i <= |s| && Next(s[start..], word) == Move(out, cur, i - start)
  {
    hide SingleLength, Double, IsSpace, Emit, Extend, ExtendQuoted;
    out, cur, i := [], word, start;
    var c := s[i];
    assert s[i..][0] == c && s[i..][1..] == s[i + 1..];
    assert i + 1 < |s| ==> s[i..][1] == s[i + 1];
    if c == '\\' && i + 1 < |s| {
      i := i + 1;
      cur := Extend(cur, [s[i]]);
    } else if c == '\'' {
      var text, j := ScanSingle(s, i + 1);
      assert text == s[i + 1..][..j - i - 1];
      cur, i := ExtendQuoted(cur, text), Min(j, |s| - 1);
    } else if c == '"' {
      var text, j := ScanDouble(s, i + 1);
      cur, i := ExtendQuoted(cur, text), Min(j, |s| - 1);
    } else if IsSpace(c) {
      out, cur := Emit(cur), None;
    } else if c == '|' || c == '&' || c == '>' {
      out, cur := Emit(cur), None;
      if i + 1 < |s| && s[i + 1] == c {
        out := out + [Op([c, c])];
        i := i + 1;
      } else {
        out := out + [Op([c])];
      }
    } else if c == ';' || c == '<' {
      out, cur := Emit(cur) + [Op([c])], None;
    } else {
      cur := Extend(cur, [c]);
    }
    i := i + 1;
  }

  lemma ScanNext(s: string, i: nat, w: Partial)
    requires i < |s|
    ensures var m := Next(s[i..], w);
            Scan(s[i..], w) == m.emitted + Scan(s[i + m.taken..], m.word)
  {
    var m := Next(s[i..], w);
    assert s[i..][m.taken..] == s[i + m.taken..];
  }

  lemma ScanEnd(w: Partial)
    ensures Scan("", w) == Emit(w)
  {
  }

  // ----- Printing tokens so that they scan back.

  /** Every `'` becomes `'\''`. */
  function Escape(w: string): string {
    if w == "" then "" else (if w[0] == '\'' then "'\\''" else [w[0]]) + Escape(w[1..])
  }

  function Quote(w: string): string {
    "'" + Escape(w) + "'"
  }

  predicate IsOperator(text: string) {
    text in ["|", "||", "&", "&&", ";", ">", ">>", "<"]
  }

  /** Quoted words of any text, and operators. */
  predicate Printable(ts: seq<Token>) {
    forall i :: 0 <= i < |ts| ==> ts[i].quoted || IsOperator(ts[i].text)
  }

  function PrintToken(t: Token): string {
    (if t.quoted then Quote(t.text) else t.text) + " "
  }

  function PrintTokens(ts: seq<Token>): string {
    if ts == [] then "" else PrintToken(ts[0]) + PrintTokens(ts[1..])
  }

  /** Up to its next single quote, quoted text is taken as it stands. */
  lemma {:induction false} SingleLengthOf(plain: string, rest: string)
    requires '\'' !in plain
    ensures SingleLength(plain + ['\''] + rest) == |plain|
  {
    if plain != "" {
      SingleLengthOf(plain[1..], rest);
      assert (plain + ['\''] + rest)[1..] == plain[1..] + ['\''] + rest;
    }
  }

  /** The text before the first single quote. */
  function Clear(w: string): (plain: string)
    ensures plain <= w && '\'' !in plain && (plain == w || w[|plain|] == '\'')
  {
    if w == "" || w[0] == '\'' then "" else [w[0]] + Clear(w[1..])
  }

  lemma {:induction false} EscapeClear(plain: string, rest: string)
    requires '\'' !in plain
    ensures Escape(plain + rest) == plain + Escape(rest)
  {
    if plain == "" {
      assert plain + rest == rest;
    } else {
      EscapeClear(plain[1..], rest);
      assert (plain + rest)[1..] == plain[1..] + rest;
    }
  }

  lemma EscapeNext(w: string)
    ensures Escape(w) == if w == "" then "" else (if w[0] == '\'' then "'\\''" else [w[0]]) + Escape(w[1..])
  {
  }

  /** Scanning an opening quote, text without quotes, and a closing quote. */
  lemma ScanQuoted(plain: string, rest: string, w: Partial)
    requires '\'' !in plain
    ensures Scan("'" + plain + "'" + rest, w) == Scan(rest, ExtendQuoted(w, plain))
  {
    var r := "'" + plain + "'" + rest;
    assert r[1..] == plain + ['\''] + rest;
    SingleLengthOf(plain, rest);
    assert r[1..][..|plain|] == plain;
    assert r[|plain| + 2..] == rest;
  }

  lemma ScanBackslash(c: char, rest: string, w: Partial)
    ensures Scan(['\\', c] + rest, w) == Scan(rest, Extend(w, [c]))
  {
    assert (['\\', c] + rest)[2..] == rest;
  }

  lemma QuoteShape(plain: string, tail: string, rest: string)
    requires '\'' !in plain
    ensures Quote(plain + ['\''] + tail) + rest == "'" + plain + "'" + (['\\', '\''] + (Quote(tail) + rest))
  {
    hide Escape;
    assert plain + ['\''] + tail == plain + (['\''] + tail);
    EscapeClear(plain, ['\''] + tail);
    EscapeNext(['\''] + tail);
    assert (['\''] + tail)[1..] == tail;
  }

  lemma QuotePlain(plain: string)
    requires '\'' !in plain
    ensures Quote(plain) == "'" + plain + "'"
  {
    EscapeClear(plain, "");
    assert plain + "" == plain;
  }

  lemma ExtendInTwo(w: Partial, plain: string, tail: string)
    ensures ExtendQuoted(Extend(ExtendQuoted(w, plain), ['\'']), tail) == ExtendQuoted(w, plain + ['\''] + tail)
  {
    var prior := if w.Some? then w.value.text else "";
    assert prior + plain + ['\''] + tail == prior + (plain + ['\''] + tail);
  }

  /** Whatever a word contains, its quoted form scans as that word, quoted. */
  lemma {:induction false} ScanQuote(word: string, rest: string, w: Partial)
    ensures Scan(Quote(word) + rest, w) == Scan(rest, ExtendQuoted(w, word))
    decreases |word|
  {
    hide Scan, Quote, Extend, ExtendQuoted;
    var plain := Clear(word);
    if plain == word {
      QuotePlain(plain);
      ScanQuoted(plain, rest, w);
    } else {
      var tail := word[|plain| + 1..];
      assert word == plain + ['\''] + tail;
      QuoteShape(plain, tail, rest);
      ScanQuoted(plain, ['\\', '\''] + (Quote(tail) + rest), w);
      ScanBackslash('\'', Quote(tail) + rest, ExtendQuoted(w, plain));
      ScanQuote(tail, rest, Extend(ExtendQuoted(w, plain), ['\'']));
      ExtendInTwo(w, plain, tail);
    }
  }

  /** Every `"` and every backslash is preceded by a backslash. */
  function EscapeDouble(w: string): string {
    if w == "" then "" else (if w[0] == '"' || w[0] == '\\' then ['\\', w[0]] else [w[0]]) + EscapeDouble(w[1..])
  }

  lemma {:induction false} DoubleOfEscaped(word: string, rest: string)
    ensures Double(EscapeDouble(word) + ['"'] + rest) == (word, |EscapeDouble(word)|)
  {
    var r := EscapeDouble(word) + ['"'] + rest;
    if word != "" {
      var more := EscapeDouble(word[1..]) + ['"'] + rest;
      DoubleOfEscaped(word[1..], rest);
      if word[0] == '"' || word[0] == '\\' {
        assert r == ['\\', word[0]] + more && r[2..] == more;
      } else {
        assert r == [word[0]] + more && r[1..] == more;
      }
      assert [word[0]] + word[1..] == word;
    }
  }

  /** Any text, escaped between double quotes, scans as that text, quoted. */
  lemma ScanDoubleQuoted(word: string, rest: string, w: Partial)
    ensures Scan("\"" + EscapeDouble(word) + "\"" + rest, w) == Scan(rest, ExtendQuoted(w, word))
  {
    hide Double, EscapeDouble, ExtendQuoted;
    var r := "\"" + EscapeDouble(word) + "\"" + rest;
    assert r[1..] == EscapeDouble(word) + ['"'] + rest;
    DoubleOfEscaped(word, rest);
    assert r[|EscapeDouble(word)| + 2..] == rest;
  }

  lemma ScanSpace(rest: string, w: Partial)
    ensures Scan(" " + rest, w) == Emit(w) + Scan(rest, None)
  {
    assert (" " + rest)[1..] == rest;
  }

  lemma NextOperator(op: string, rest: string)
    requires IsOperator(op)
    ensures Next(op + " " + rest, None) == Move([Op(op)], None, |op|)
  {
    var r := op + " " + rest;
    assert r[0] == op[0] && r[1] == if |op| == 1 then ' ' else op[0];
    assert op == if |op| == 1 then [op[0]] else [op[0], op[0]];
    assert Emit(None) + [Op(op)] == [Op(op)];
  }

  lemma ScanOperator(op: string, rest: string)
    requires IsOperator(op)
    ensures Scan(op + " " + rest, None) == [Op(op)] + Scan(rest, None)
  {
    hide Scan, Next, IsOperator;
    var r := op + " " + rest;
    NextOperator(op, rest);
    ScanNext(r, 0, None);
    ScanSpace(rest, None);
    assert r[0..] == r && r[|op|..] == " " + rest;
  }

  /** Scanning undoes printing, token by token. */
  lemma {:induction false} ScanPrinted(ts: seq<Token>)
    requires Printable(ts)
    ensures Tokens(PrintTokens(ts)) == ts
  {
    hide Scan, Quote;
    ScanEnd(None);
    if ts != [] {
      var t, rest := ts[0], PrintTokens(ts[1..]);
      ScanPrinted(ts[1..]);
      if t.quoted {
        assert PrintTokens(ts) == Quote(t.text) + (" " + rest);
        ScanQuote(t.text, " " + rest, None);
        ScanSpace(rest, ExtendQuoted(None, t.text));
        assert "" + t.text == t.text;
      } else {
        assert PrintTokens(ts) == t.text + " " + rest;
        ScanOperator(t.text, rest);
      }
    }
  }
}
