/** What a command line's characters say: words made of bare, escaped and quoted
    pieces, operators, and blanks (`tokenize` in node/internal/shell/parser.go). */
module Lexing {
  import opened Basics
  import opened Tokenizer

  /** Characters that stand for themselves outside quotes. */
  predicate Bare(c: char) {
    c !in "\\'\"|&;<>" && !IsSpace(c)
  }

  predicate BareWord(w: string) {
    w != "" && forall i :: 0 <= i < |w| ==> Bare(w[i])
  }

  lemma ScanChar(c: char, rest: string, w: Partial)
    requires Bare(c)
    ensures Scan([c] + rest, w) == Scan(rest, Extend(w, [c]))
  {
    hide IsSpace, Extend;
    var r := [c] + rest;
    assert r[0] == c && r[1..] == rest;
    assert Next(r, w) == Move([], Extend(w, [c]), 1);
  }

  lemma {:induction false} ScanMore(word: string, rest: string, t: Token)
    requires forall i :: 0 <= i < |word| ==> Bare(word[i])
    ensures Scan(word + rest, Some(t)) == Scan(rest, Some(t.(text := t.text + word)))
    decreases |word|
  {
    hide Scan, Bare;
    if word == "" {
      assert word + rest == rest && t.text + word == t.text;
    } else {
      assert word + rest == [word[0]] + (word[1..] + rest);
      ScanChar(word[0], word[1..] + rest, Some(t));
      ScanMore(word[1..], rest, t.(text := t.text + [word[0]]));
      assert t.text + [word[0]] + word[1..] == t.text + word;
    }
  }

  /** A bare word scans as itself, unquoted. */
  lemma ScanBare(word: string, rest: string)
    requires BareWord(word)
    ensures Scan(word + rest, None) == Scan(rest, Some(Token(word, false)))
  {
    hide Scan, Bare;
    assert word + rest == [word[0]] + (word[1..] + rest);
    ScanChar(word[0], word[1..] + rest, None);
    ScanMore(word[1..], rest, Token([word[0]], false));
    assert [word[0]] + word[1..] == word;
  }

  // ----- Lines as they may be written.

  /** A piece of a word. In double quotes, any character may have a backslash before
      it, and a double quote or a backslash must. */
  datatype Piece =
    | Raw(text: string)
    | Escaped(c: char)
    | InSingle(text: string)
    | InDouble(text: string, marks: seq<bool>)

  datatype Item = WordItem(pieces: seq<Piece>) | OperatorItem(op: string) | BlankItem(c: char)

  function Marked(text: string, marks: seq<bool>): string
    requires |text| == |marks|
  {
    if text == "" then "" else (if marks[0] then ['\\', text[0]] else [text[0]]) + Marked(text[1..], marks[1..])
  }

  predicate WellMarked(text: string, marks: seq<bool>) {
    |text| == |marks| && forall i :: 0 <= i < |text| && (text[i] == '"' || text[i] == '\\') ==> marks[i]
  }

  predicate WellPiece(p: Piece) {
    match p
    case Raw(text) => BareWord(text)
    case Escaped(_) => true
    case InSingle(text) => '\'' !in text
    case InDouble(text, marks) => WellMarked(text, marks)
  }

  function PieceText(p: Piece): string {
    match p
    case Raw(text) => text
    case Escaped(c) => [c]
    case InSingle(text) => text
    case InDouble(text, _) => text
  }

  function SpelledPiece(p: Piece): string
    requires WellPiece(p)
  {
    match p
    case Raw(text) => text
    case Escaped(c) => ['\\', c]
    case InSingle(text) => "'" + text + "'"
    case InDouble(text, marks) => "\"" + Marked(text, marks) + "\""
  }

  predicate WellPieces(ps: seq<Piece>) {
    forall i :: 0 <= i < |ps| ==> WellPiece(ps[i])
  }

  function SpelledPieces(ps: seq<Piece>): string
    requires WellPieces(ps)
  {
    if ps == [] then "" else SpelledPiece(ps[0]) + SpelledPieces(ps[1..])
  }

  function PiecesText(ps: seq<Piece>): string {
    if ps == [] then "" else PieceText(ps[0]) + PiecesText(ps[1..])
  }

  predicate SomeQuoted(ps: seq<Piece>) {
    exists i :: 0 <= i < |ps| && (ps[i].InSingle? || ps[i].InDouble?)
  }

  predicate WellItem(x: Item) {
    match x
    case WordItem(ps) => ps != [] && WellPieces(ps)
    case OperatorItem(op) => IsOperator(op)
    case BlankItem(c) => IsSpace(c)
  }

  function SpelledItem(x: Item): string
    requires WellItem(x)
  {
    match x
    case WordItem(ps) => SpelledPieces(ps)
    case OperatorItem(op) => op
    case BlankItem(c) => [c]
  }

  function ItemTokens(x: Item): seq<Token> {
    match x
    case WordItem(ps) => [Token(PiecesText(ps), SomeQuoted(ps))]
    case OperatorItem(op) => [Token(op, false)]
    case BlankItem(_) => []
  }

  /** Two words have something between them, and an operator of one character is not
      followed by one that starts with the same. */
  predicate Apart(x: Item, y: Item) {
    && !(x.WordItem? && y.WordItem?)
    && !(x.OperatorItem? && y.OperatorItem? && |x.op| == 1 && y.op != "" && y.op[0] == x.op[0])
  }

  predicate WellLine(xs: seq<Item>) {
    && (forall i :: 0 <= i < |xs| ==> WellItem(xs[i]))
    && (forall i :: 0 <= i < |xs| - 1 ==> Apart(xs[i], xs[i + 1]))
  }

  function SpelledLine(xs: seq<Item>): string
    requires WellLine(xs)
  {
    if xs == [] then "" else SpelledItem(xs[0]) + SpelledLine(xs[1..])
  }

  function LineTokens(xs: seq<Item>): seq<Token> {
    if xs == [] then [] else ItemTokens(xs[0]) + LineTokens(xs[1..])
  }

  // ----- Words.

  lemma {:induction false} DoubleMarked(text: string, marks: seq<bool>, rest: string)
    requires WellMarked(text, marks)
    ensures Double(Marked(text, marks) + ['"'] + rest) == (text, |Marked(text, marks)|)
    decreases |text|
  {
    var r := Marked(text, marks) + ['"'] + rest;
    if text != "" {
      var more := Marked(text[1..], marks[1..]) + ['"'] + rest;
      DoubleMarked(text[1..], marks[1..], rest);
      if marks[0] {
        assert r == ['\\', text[0]] + more && r[2..] == more;
      } else {
        assert r == [text[0]] + more && r[1..] == more;
      }
      assert [text[0]] + text[1..] == text;
    }
  }

  lemma ScanMarked(text: string, marks: seq<bool>, rest: string, w: Partial)
    requires WellMarked(text, marks)
    ensures Scan("\"" + Marked(text, marks) + "\"" + rest, w) == Scan(rest, ExtendQuoted(w, text))
  {
    hide Double, Marked, ExtendQuoted;
    var r := "\"" + Marked(text, marks) + "\"" + rest;
    assert r[1..] == Marked(text, marks) + ['"'] + rest;
    DoubleMarked(text, marks, rest);
    assert r[|Marked(text, marks)| + 2..] == rest;
  }

  /** The word under construction once this much text is added, quoted or not. */
  function Grown(w: Partial, text: string, quoted: bool): Partial {
    Some(Token((if w.Some? then w.value.text else "") + text, quoted || (w.Some? && w.value.quoted)))
  }

  lemma ScanRaw(text: string, rest: string, w: Partial)
    requires BareWord(text)
    ensures Scan(text + rest, w) == Scan(rest, Grown(w, text, false))
  {
    hide Scan, BareWord;
    BareChars(text);
    if w.Some? {
      ScanMore(text, rest, w.value);
    } else {
      ScanBare(text, rest);
      assert "" + text == text;
    }
  }

  lemma BareChars(text: string)
    requires BareWord(text)
    ensures text != "" && forall i :: 0 <= i < |text| ==> Bare(text[i])
  {
  }

  lemma GrownIs(w: Partial, text: string)
    ensures Extend(w, text) == Grown(w, text, false) && ExtendQuoted(w, text) == Grown(w, text, true)
  {
    assert "" + text == text;
  }

  lemma ScanPiece(p: Piece, rest: string, w: Partial)
    requires WellPiece(p)
    ensures Scan(SpelledPiece(p) + rest, w) == Scan(rest, Grown(w, PieceText(p), p.InSingle? || p.InDouble?))
  {
    hide Scan, Marked, WellMarked, BareWord, Extend, ExtendQuoted, Grown;
    GrownIs(w, PieceText(p));
    match p
    case Raw(text) => ScanRaw(text, rest, w);
    case Escaped(c) => ScanBackslash(c, rest, w);
    case InSingle(text) => ScanQuoted(text, rest, w);
    case InDouble(text, marks) => ScanMarked(text, marks, rest, w);
  }

  lemma {:induction false} ScanPieces(ps: seq<Piece>, rest: string, w: Partial)
    requires WellPieces(ps) && (w.Some? || ps != [])
    ensures Scan(SpelledPieces(ps) + rest, w) == Scan(rest, Grown(w, PiecesText(ps), SomeQuoted(ps)))
    decreases |ps|
  {
    hide Scan, SpelledPiece, PieceText;
    if ps == [] {
      assert SpelledPieces(ps) + rest == rest;
      assert w.value.text + "" == w.value.text;
    } else {
      var p := ps[0];
      assert SpelledPieces(ps) + rest == SpelledPiece(p) + (SpelledPieces(ps[1..]) + rest);
      ScanPiece(p, SpelledPieces(ps[1..]) + rest, w);
      var now := Grown(w, PieceText(p), p.InSingle? || p.InDouble?);
      ScanPieces(ps[1..], rest, now);
      GrownTwice(w, ps);
    }
  }

  lemma GrownTwice(w: Partial, ps: seq<Piece>)
    requires ps != []
    ensures Grown(Grown(w, PieceText(ps[0]), ps[0].InSingle? || ps[0].InDouble?), PiecesText(ps[1..]), SomeQuoted(ps[1..]))
         == Grown(w, PiecesText(ps), SomeQuoted(ps))
  {
    hide SomeQuoted, PieceText;
    SomeQuotedFirst(ps);
    var before := if w.Some? then w.value.text else "";
    assert PiecesText(ps) == PieceText(ps[0]) + PiecesText(ps[1..]);
    hide PiecesText;
    assert before + PieceText(ps[0]) + PiecesText(ps[1..]) == before + (PieceText(ps[0]) + PiecesText(ps[1..]));
  }

  lemma SomeQuotedFirst(ps: seq<Piece>)
    requires ps != []
    ensures SomeQuoted(ps) <==> ps[0].InSingle? || ps[0].InDouble? || SomeQuoted(ps[1..])
  {
    assert forall i :: 0 <= i < |ps| - 1 ==> ps[1..][i] == ps[i + 1];
    assert forall i :: 0 < i < |ps| ==> ps[i] == ps[1..][i - 1];
  }

  // ----- What ends a word.

  /** Nothing more, a blank, or the first character of an operator. */
  predicate EndsWord(rest: string) {
    rest == "" || IsSpace(rest[0]) || rest[0] in "|&;<>"
  }

  lemma ScanBreak(rest: string, t: Token)
    requires EndsWord(rest)
    ensures Scan(rest, Some(t)) == [t] + Scan(rest, None)
  {
    hide Scan, IsSpace;
    if rest == "" {
      ScanEnd(Some(t));
      ScanEnd(None);
    } else {
      ScanNext(rest, 0, Some(t));
      ScanNext(rest, 0, None);
      assert rest[0..] == rest;
      NextBreak(rest, t);
    }
  }

  lemma NextBreak(r: string, t: Token)
    requires r != "" && EndsWord(r)
    ensures var m, n := Next(r, Some(t)), Next(r, None);
            m.word == n.word == None && m.taken == n.taken && m.emitted == [t] + n.emitted
  {
    hide SingleLength, Double;
  }

  lemma ScanBlank(c: char, rest: string)
    requires IsSpace(c)
    ensures Scan([c] + rest, None) == Scan(rest, None)
  {
    assert ([c] + rest)[1..] == rest;
  }

  lemma ScanAnOperator(op: string, rest: string)
    requires IsOperator(op) && (|op| == 1 && rest != "" ==> rest[0] != op[0])
    ensures Scan(op + rest, None) == [Token(op, false)] + Scan(rest, None)
  {
    hide Scan;
    var r := op + rest;
    assert r[0] == op[0] && (|op| == 2 ==> r[1] == op[1] == op[0]);
    assert |op| == 1 && rest != "" ==> r[1] == rest[0];
    assert op == if |op| == 1 then [op[0]] else [op[0], op[0]];
    assert Next(r, None) == Move([Op(op)], None, |op|);
    ScanNext(r, 0, None);
    assert r[0..] == r && r[|op|..] == rest;
  }

  lemma OperatorFirst(op: string)
    requires IsOperator(op)
    ensures op != "" && op[0] in "|&;<>"
  {
  }

  lemma FirstOfLine(xs: seq<Item>, x: Item)
    requires WellLine([x] + xs)
    ensures WellLine(xs)
    ensures x.WordItem? ==> EndsWord(SpelledLine(xs))
    ensures x.OperatorItem? && |x.op| == 1 && SpelledLine(xs) != "" ==> SpelledLine(xs)[0] != x.op[0]
  {
    hide IsSpace, IsOperator, Bare;
    var all := [x] + xs;
    assert forall i :: 0 <= i < |xs| ==> xs[i] == all[i + 1];
    if xs != [] {
      assert Apart(all[0], all[1]) && WellItem(all[1]);
      FirstOfItem(xs[0]);
      if xs[0].OperatorItem? {
        OperatorFirst(xs[0].op);
      }
      if x.OperatorItem? {
        assert WellItem(all[0]);
        OperatorFirst(x.op);
      }
    }
  }

  /** How an item begins. */
  lemma FirstOfItem(x: Item)
    requires WellItem(x)
    ensures SpelledItem(x) != ""
    ensures x.BlankItem? ==> IsSpace(SpelledItem(x)[0]) && SpelledItem(x)[0] !in "|&;<>"
    ensures x.OperatorItem? ==> SpelledItem(x)[0] == x.op[0]
    ensures x.WordItem? ==> SpelledItem(x)[0] !in "|&;<>"
  {
    hide Marked, WellMarked;
    if x.WordItem? {
      var p := x.pieces[0];
      assert SpelledItem(x) == SpelledPiece(p) + SpelledPieces(x.pieces[1..]);
      assert p.Raw? ==> Bare(p.text[0]);
    }
  }

  /** What a line says: its words, each with all its pieces together and quoted if any
      piece is, and its operators, in order; blanks only keep words apart. */
  lemma {:induction false} LineSays(xs: seq<Item>)
    requires WellLine(xs)
    ensures Tokens(SpelledLine(xs)) == LineTokens(xs)
    decreases |xs|
  {
    hide Scan, SpelledItem, WellItem, Apart, EndsWord, ItemTokens;
    if xs == [] {
      ScanEnd(None);
    } else {
      assert xs == [xs[0]] + xs[1..];
      FirstOfLine(xs[1..], xs[0]);
      LineSays(xs[1..]);
      ItemSays(xs[0], SpelledLine(xs[1..]));
    }
  }

  lemma ItemSays(x: Item, rest: string)
    requires WellItem(x) && (x.WordItem? ==> EndsWord(rest))
    requires x.OperatorItem? && |x.op| == 1 && rest != "" ==> rest[0] != x.op[0]
    ensures Scan(SpelledItem(x) + rest, None) == ItemTokens(x) + Scan(rest, None)
  {
    hide Scan, SpelledPieces, WellPieces, EndsWord, IsOperator, IsSpace;
    match x
    case WordItem(ps) =>
      ScanPieces(ps, rest, None);
      assert "" + PiecesText(ps) == PiecesText(ps);
      ScanBreak(rest, Token(PiecesText(ps), SomeQuoted(ps)));
    case OperatorItem(op) => ScanAnOperator(op, rest);
    case BlankItem(c) =>
      ScanBlank(c, rest);
      assert [] + Scan(rest, None) == Scan(rest, None);
  }

  /** A backslash does not keep an operator from acting: a word that is nothing but the
      escaped operator gives the very token the operator gives. */
  lemma EscapedOperatorActs(c: char)
    requires c in "|&;<>"
    ensures Tokens(['\\', c]) == Tokens([c]) == [Token([c], false)]
  {
    hide Scan, IsSpace;
    var escaped, bare := [WordItem([Escaped(c)])], [OperatorItem([c])];
    OperatorChar(c);
    assert escaped[1..] == [] && bare[1..] == [];
    LineSays(escaped);
    LineSays(bare);
    SpelledOne(c);
  }

  lemma OperatorChar(c: char)
    requires c in "|&;<>"
    ensures IsOperator([c])
  {
  }

  lemma SpelledOne(c: char)
    requires IsOperator([c])
    ensures WellLine([WordItem([Escaped(c)])]) && SpelledLine([WordItem([Escaped(c)])]) == ['\\', c]
    ensures WellLine([OperatorItem([c])]) && SpelledLine([OperatorItem([c])]) == [c]
    ensures LineTokens([WordItem([Escaped(c)])]) == [Token([c], false)] == LineTokens([OperatorItem([c])])
  {
    hide IsOperator, IsSpace;
    var p := [Escaped(c)];
    assert p[1..] == [] && SpelledPieces([]) == "" && PiecesText([]) == "";
    assert [WordItem(p)][1..] == [] && [OperatorItem([c])][1..] == [];
    assert SpelledPieces(p) == ['\\', c] && PiecesText(p) == [c];
    assert SpelledLine([]) == "" && LineTokens([]) == [];
  }
}
