/**
 The single-line form of a program: what `tkc_minify` writes for a token stream, and when the lexer reads
 the same stream back from it.
 */
module MinifySpec {
  import opened Wrappers
  import opened Chars
  import T = Tokens
  import opened LexerSpec
  import opened Lexemes
  import opened TokenBoundary
  import opened MinString

  predicate Nonempty(ws: seq<Word>) { forall i | 0 <= i < |ws| :: ws[i].text != "" }

  predicate Tokens(ws: seq<Word>) { forall i | 0 <= i < |ws| :: Shape(ws[i]) }

  function Piece(w: Word): string { if w.kind == T.StrLit then MinStr(w.text) else w.text }

  /** The blank between two tokens that would run together as one word. */
  function Gap(a: Word, b: Word): string
    requires a.text != "" && b.text != ""
  {
    if IsWordChar(a.text[|a.text| - 1]) && IsWordChar(b.text[0]) then " " else ""
  }

  function Out(ws: seq<Word>): string
    requires Nonempty(ws)
    decreases |ws|, 1
  {
    if ws == [] then "" else Piece(ws[0]) + Tail(ws)
  }

  /** What is written behind the first token. */
  function Tail(ws: seq<Word>): string
    requires ws != [] && Nonempty(ws)
    decreases |ws|, 0
  {
    if |ws| == 1 then "" else Gap(ws[0], ws[1]) + Out(ws[1..])
  }

  function Minified(s: string): Option<string> {
    match Words(s)
    case Some(ws) => if Nonempty(ws) then Some(Out(ws)) else None
    case None => None
  }

  /** A token as it is written. */
  function Written(w: Word): Word { Word(w.kind, Piece(w)) }

  function AllWritten(ws: seq<Word>): (r: seq<Word>)
    ensures |r| == |ws| && forall i | 0 <= i < |ws| :: r[i] == Written(ws[i])
  {
    seq(|ws|, i requires 0 <= i < |ws| => Written(ws[i]))
  }

  // ----- neighbours that fuse -----

  /** Token `k` runs into what follows it when no blank stands between. */
  predicate FusesAt(ws: seq<Word>, k: nat)
    requires Nonempty(ws)
  {
    && k + 1 < |ws|
    && ( || PairFuses(ws[k].text, ws[k + 1].text[0])
         || (k + 2 < |ws| && IsDecimal(ws[k].text) && ws[k + 1].text == "." && IsDigit(ws[k + 2].text[0])))
  }

  predicate NoFuse(ws: seq<Word>)
    requires Nonempty(ws)
  {
    forall k | 0 <= k < |ws| :: !FusesAt(ws, k)
  }

  lemma NoFuseCons(ws: seq<Word>)
    requires ws != [] && Nonempty(ws)
    ensures NoFuse(ws) <==> !FusesAt(ws, 0) && NoFuse(ws[1..])
  {
    forall k | 0 <= k < |ws| - 1 ensures FusesAt(ws[1..], k) == FusesAt(ws, k + 1) {}
    if !FusesAt(ws, 0) && NoFuse(ws[1..]) {
      forall k | 0 <= k < |ws| ensures !FusesAt(ws, k) {
        if k > 0 { assert !FusesAt(ws[1..], k - 1); }
      }
    }
  }

  // ----- single tokens -----

  lemma ClassifyKind(t: string)
    requires t != ""
    ensures Classify(t, Default) != T.StrLit && Classify(t, Default) != T.Eof
  {
  }

  lemma SymbolKind(w: Word)
    requires w.text != "" && SymbolShape(w)
    ensures w.kind != T.StrLit && w.kind != T.Eof
  {
  }

  /** A token is a string exactly when it starts with a quote, and is never the end of the file. */
  lemma ShapeKind(w: Word)
    requires Shape(w)
    ensures (w.kind == T.StrLit <==> w.text[0] == '"') && w.kind != T.Eof
  {
    hide Span, Classify, Closes, SymbolShape, IntShape, FloatShape, In;
    if IsLetter(w.text[0]) { ClassifyKind(w.text); }
    else if !IsDigit(w.text[0]) && w.text[0] != '"' { SymbolKind(w); }
  }

  lemma {:induction false} ClosesAtQuote(t: string, i: nat)
    requires i <= |t| && Closes(t, i) == Some(|t|)
    ensures i < |t| && t[|t| - 1] == '"'
    decreases |t| - i
  {
    hide InterpEnd;
    var m := MoveAt(t, i);
    if m.Over? { ClosesAtQuote(t, m.next); }
  }

  /** Writing a token keeps it a token of the same kind, with the same first and last character. */
  lemma WrittenShape(w: Word)
    requires Shape(w)
    ensures var v := Written(w);
            && Shape(v) && v.text[0] == w.text[0] && v.text[|v.text| - 1] == w.text[|w.text| - 1]
            && Written(v) == v && (w.kind != T.StrLit ==> v == w)
  {
    ShapeKind(w);
    if w.kind == T.StrLit {
      MinStrKeepsMeaning(w.text);
      MinStrOneLine(w.text);
      ClosesAtQuote(w.text, 1);
      ClosesAtQuote(MinStr(w.text), 1);
      hide MinStr, Closes, Meaning, OneLine;
    }
  }

  /** Identifiers and numbers end in a word character, the other tokens do not. */
  lemma LastChar(w: Word)
    requires Shape(w)
    ensures IsWordChar(w.text[|w.text| - 1]) <==> IsLetter(w.text[0]) || IsDigit(w.text[0])
  {
    var t := w.text;
    hide Classify, IntShape, FloatShape;
    if IsLetter(t[0]) {
      SpanLast(t, 1, IdentC);
    } else if IsDigit(t[0]) {
      NumberLast(w);
    } else if t[0] == '"' {
      ClosesAtQuote(t, 1);
    } else {
      SymbolLast(w);
    }
  }

  lemma SpanLast(t: string, i: nat, cls: Class)
    requires i <= |t| && Span(t, i, cls) == |t|
    ensures i < |t| ==> In(t[|t| - 1], cls)
  {
    SpanFacts(t, i, cls);
    hide Span;
  }

  lemma NumberLast(w: Word)
    requires NumberShape(w) && IsDigit(w.text[0])
    ensures IsWordChar(w.text[|w.text| - 1])
  {
    var t := w.text;
    if IsHexLit(t) || IsBinLit(t) { SpanLast(t, 2, DigitsOf(t)); }
    else if w.kind == T.IntLit { SpanLast(t, 1, DigitC); }
    else { SpanLast(t, Span(t, 1, DigitC) + 1, DigitC); }
    hide Span;
  }

  lemma SymbolLast(w: Word)
    requires w.text != "" && SymbolShape(w) && !IsLetter(w.text[0]) && !IsDigit(w.text[0])
    ensures !IsWordChar(w.text[|w.text| - 1])
  {
  }

  /** The only token that starts with a dot is the dot. */
  lemma DotToken(w: Word)
    requires Shape(w) && w.text[0] == '.'
    ensures w.text == "."
  {
    hide Single;
  }

  // ----- what follows a token -----

  lemma TokensNonempty(ws: seq<Word>)
    requires Tokens(ws)
    ensures Nonempty(ws)
  {
    hide Shape;
    forall i | 0 <= i < |ws| ensures ws[i].text != "" { ShapeText(ws[i]); }
  }

  lemma OutHead(ws: seq<Word>)
    requires ws != [] && Tokens(ws)
    ensures Nonempty(ws) && Out(ws) != "" && Out(ws)[0] == ws[0].text[0]
  {
    WrittenShape(ws[0]);
    TokensNonempty(ws);
    hide Shape, MinStr, Tail, Written;
    assert Written(ws[0]).text == Piece(ws[0]);
  }

  /** The first character behind the first token. */
  lemma TailHead(ws: seq<Word>)
    requires |ws| >= 2 && Tokens(ws)
    ensures Nonempty(ws) && Tail(ws) != ""
    ensures Tail(ws)[0] == if Gap(ws[0], ws[1]) == " " then ' ' else ws[1].text[0]
  {
    hide Shape, Out, IsWordChar;
    TokensNonempty(ws);
    OutHead(ws[1..]);
    assert ws[1..][0] == ws[1];
  }

  /** A dot and a digit behind the first token. */
  lemma TailRunsOn(ws: seq<Word>)
    requires |ws| >= 2 && Tokens(ws) && Nonempty(ws) && Gap(ws[0], ws[1]) == ""
    ensures RunsOn(Tail(ws)) <==> |ws| >= 3 && ws[1].text == "." && IsDigit(ws[2].text[0])
  {
    TailHead(ws);
    var vs := ws[1..];
    assert vs[0] == ws[1];
    assert Tail(ws) == Out(vs) == Piece(vs[0]) + Tail(vs);
    hide Out;
    if vs[0].text[0] == '.' {
      DotToken(vs[0]);
      ShapeKind(vs[0]);
      hide Shape, MinStr;
      assert Piece(vs[0]) == ".";
      if |vs| >= 2 {
        TailHead(vs);
        assert vs[1] == ws[2];
        assert Gap(vs[0], vs[1]) == "";
        assert Tail(ws)[1] == Tail(vs)[0];
      }
    }
  }

  /** After a blank nothing runs on. */
  lemma StopsGap(t: string, r: string)
    requires t != "" && r != "" && r[0] == ' '
    ensures Stops(t, r)
  {
    hide IsDecimal;
  }

  lemma StopsClose(t: string, r: string)
    requires t != "" && r != "" && (IsLetter(t[0]) || IsDigit(t[0]) ==> !IsWordChar(r[0]))
    ensures Stops(t, r) <==> !PairFuses(t, r[0]) && !(IsDecimal(t) && RunsOn(r))
  {
    hide Pair;
    if IsDecimal(t) { assert IsDigit(t[0]); }
    hide IsDecimal;
  }

  lemma GapNoFuse(ws: seq<Word>)
    requires |ws| >= 2 && Nonempty(ws) && Gap(ws[0], ws[1]) == " "
    ensures !FusesAt(ws, 0)
  {
    hide IsDecimal;
  }

  /** Strings never fuse, and their text is the only one that changes. */
  lemma PieceFuses(w: Word, d: char)
    requires Shape(w)
    ensures PairFuses(Piece(w), d) == PairFuses(w.text, d) && IsDecimal(Piece(w)) == IsDecimal(w.text)
  {
    WrittenShape(w);
    ShapeKind(w);
    hide Shape, MinStr;
    assert Written(w).text == Piece(w);
    if w.kind == T.StrLit { assert !IsDigit(w.text[0]) && !IsDigit(Piece(w)[0]); }
  }

  /** The blank rule leaves exactly the fusing neighbours to run on. */
  lemma TailStops(ws: seq<Word>)
    requires ws != [] && Tokens(ws)
    ensures Nonempty(ws) && Piece(ws[0]) != ""
    ensures Stops(Piece(ws[0]), Tail(ws)) <==> !FusesAt(ws, 0)
  {
    var t := Piece(ws[0]);
    WrittenShape(ws[0]);
    LastChar(ws[0]);
    hide Shape, MinStr, PairFuses, IsDecimal, RunsOn;
    assert Written(ws[0]).text == t;
    if |ws| >= 2 {
      TailHead(ws);
      if Gap(ws[0], ws[1]) == "" {
        TailRunsOn(ws);
        StopsClose(t, Tail(ws));
        PieceFuses(ws[0], ws[1].text[0]);
      } else {
        StopsGap(t, Tail(ws));
        GapNoFuse(ws);
      }
      hide Stops, Tail;
    }
  }

  // ----- reading back -----

  /** The lexer passes over the blank. */
  lemma {:induction false} WordsBlank(x: string)
    ensures Words(" " + x) == Words(x)
  {
    assert First(" " + x) == Skip(1);
    assert (" " + x)[1..] == x;
  }

  lemma WordsTail(ws: seq<Word>)
    requires ws != [] && Nonempty(ws)
    ensures Words(Tail(ws)) == Words(Out(ws[1..]))
  {
    if |ws| >= 2 {
      WordsBlank(Out(ws[1..]));
      hide Words, Out;
      assert "" + Out(ws[1..]) == Out(ws[1..]);
    }
  }

  lemma WordsTake(t: string, r: string, kind: T.TokenKind)
    requires t != "" && First(t + r) == Take(kind, |t|)
    ensures Words(t + r) == Cons(Word(kind, t), Words(r))
  {
    hide First;
    assert (t + r)[..|t|] == t && (t + r)[|t|..] == r;
  }

  /** A first token that does not fuse is read back, and then the rest is. */
  lemma ReadFirst(ws: seq<Word>)
    requires ws != [] && Tokens(ws) && Nonempty(ws) && !FusesAt(ws, 0)
    ensures Words(Out(ws)) == Cons(Written(ws[0]), Words(Out(ws[1..])))
  {
    TailStops(ws);
    WrittenShape(ws[0]);
    Boundary(Written(ws[0]), Tail(ws));
    WordsTake(Piece(ws[0]), Tail(ws), ws[0].kind);
    WordsTail(ws);
    hide Words, Shape, First, Stops, Tail, FusesAt;
  }

  // ----- ink -----

  /** The characters of a text that are not blanks. */
  function Ink(s: string): nat {
    if s == "" then 0 else (if s[0] == ' ' then 0 else 1) + Ink(s[1..])
  }

  function WordsInk(ws: seq<Word>): nat {
    if ws == [] then 0 else Ink(ws[0].text) + WordsInk(ws[1..])
  }

  lemma {:induction false} InkConcat(a: string, b: string)
    ensures Ink(a + b) == Ink(a) + Ink(b)
  {
    if a == "" {
      assert a + b == b;
    } else {
      assert (a + b)[1..] == a[1..] + b;
      InkConcat(a[1..], b);
    }
  }

  /** The lexer finds no more ink than there is. */
  lemma {:induction false} InkBound(s: string)
    ensures Words(s).Some? ==> WordsInk(Words(s).value) <= Ink(s)
    decreases |s|
  {
    if s != "" && !First(s).Reject? {
      var n := First(s).n;
      hide First;
      InkBound(s[n..]);
      assert s == s[..n] + s[n..];
      InkConcat(s[..n], s[n..]);
      hide Ink;
      if First(s).Take? && Words(s[n..]).Some? {
        var w := Word(First(s).kind, s[..n]);
        assert Words(s).value == [w] + Words(s[n..]).value;
        assert Words(s).value[1..] == Words(s[n..]).value;
      }
    }
  }

  /** All the ink of the written text is in the written tokens. */
  lemma {:induction false} OutInk(ws: seq<Word>)
    requires Nonempty(ws)
    ensures Ink(Out(ws)) == WordsInk(AllWritten(ws))
  {
    if ws != [] {
      var vs := AllWritten(ws);
      OutInk(ws[1..]);
      WrittenInk(ws);
      assert Out(ws) == Piece(ws[0]) + Tail(ws);
      hide Piece, Out, WordsInk, AllWritten, Written;
      InkConcat(Piece(ws[0]), Tail(ws));
      if |ws| >= 2 {
        InkConcat(Gap(ws[0], ws[1]), Out(ws[1..]));
        assert Ink(" ") == 0;
      } else {
        assert AllWritten([]) == [] && ws[1..] == [];
        assert Ink(Out(ws[1..])) == 0 by { OutNone(); }
      }
    }
  }

  lemma WrittenInk(ws: seq<Word>)
    requires ws != []
    ensures WordsInk(AllWritten(ws)) == Ink(Piece(ws[0])) + WordsInk(AllWritten(ws[1..]))
  {
    hide Ink, Piece;
    assert AllWritten(ws)[1..] == AllWritten(ws[1..]);
  }

  lemma OutNone()
    ensures Out([]) == "" && Ink("") == 0
  {
  }

  /** Passing over something that starts with ink loses ink. */
  lemma SkipLosesInk(s: string)
    requires s != "" && s[0] != ' ' && First(s).Skip? && Words(s).Some?
    ensures WordsInk(Words(s).value) < Ink(s)
  {
    var n := First(s).n;
    assert Words(s) == Words(s[n..]);
    InkBound(s[n..]);
    hide Words, First, WordsInk;
    assert s[1..] == s[1..n] + s[n..];
    InkConcat(s[1..n], s[n..]);
  }

  lemma FirstWord(s: string)
    requires s != "" && First(s).Take? && Words(s).Some?
    ensures Words(s).value != [] && Words(s).value[0] == Word(First(s).kind, s[..First(s).n])
  {
    hide First;
  }

  /** A first token that fuses is not read back: the lexer reads another token, an error, or a comment
      that swallows ink. */
  lemma FuseBreaks(ws: seq<Word>)
    requires ws != [] && Tokens(ws) && Nonempty(ws) && FusesAt(ws, 0)
    ensures Words(Out(ws)) != Some(AllWritten(ws))
  {
    var s := Out(ws);
    TailStops(ws);
    WrittenShape(ws[0]);
    Boundary(Written(ws[0]), Tail(ws));
    OutHead(ws);
    TokenInk(ws[0]);
    OutInk(ws);
    hide Shape, Stops, Tail, FusesAt, First, Ink, WordsInk, Piece;
    assert First(s) != Take(ws[0].kind, |Piece(ws[0])|);
    if Words(s).Some? {
      match First(s)
      case Take(_, _) => hide Words; FirstWord(s);
      case Skip(_) => hide Words; SkipLosesInk(s);
      case Reject =>
    }
  }

  lemma TokenInk(w: Word)
    requires Shape(w)
    ensures w.text[0] != ' '
  {
    hide Span, Closes, Classify, NumberShape, Single, Pair;
  }

  /** For every token stream: the written text is read back as the same tokens exactly when no
      neighbours fuse. */
  lemma {:induction false} ReadBack(ws: seq<Word>)
    requires Tokens(ws)
    ensures Nonempty(ws)
    ensures Words(Out(ws)) == Some(AllWritten(ws)) <==> NoFuse(ws)
    decreases |ws|
  {
    hide Shape, FusesAt, Written;
    TokensNonempty(ws);
    if ws != [] {
      hide Words, Out, NoFuse, AllWritten;
      NoFuseCons(ws);
      if FusesAt(ws, 0) {
        FuseBreaks(ws);
      } else {
        ReadBack(ws[1..]);
        ReadFirst(ws);
        AllWrittenCons(ws);
        ConsSame(Written(ws[0]), Words(Out(ws[1..])), AllWritten(ws[1..]));
      }
    }
  }

  lemma AllWrittenCons(ws: seq<Word>)
    requires ws != []
    ensures AllWritten(ws) == [Written(ws[0])] + AllWritten(ws[1..])
  {
    hide Written;
  }

  lemma ShapeText(w: Word)
    requires Shape(w)
    ensures w.text != ""
  {
  }

  lemma ConsSame(w: Word, x: Option<seq<Word>>, y: seq<Word>)
    ensures Cons(w, x) == Some([w] + y) <==> x == Some(y)
  {
    if Cons(w, x) == Some([w] + y) {
      assert x.value == ([w] + x.value)[1..] == ([w] + y)[1..] == y;
    }
  }

  // ----- whole programs -----

  lemma {:induction false} WordsAreTokens(s: string)
    ensures Words(s).Some? ==> Tokens(Words(s).value)
    decreases |s|
  {
    hide Shape, First;
    if s != "" && !First(s).Reject? {
      WordsAreTokens(s[First(s).n..]);
      if First(s).Take? { FirstShape(s); }
    }
  }

  /** Two tokens a compiler cannot tell apart: string literals count by what they denote. */
  predicate SameToken(a: Word, b: Word) {
    && a.kind == b.kind
    && if a.kind != T.StrLit then a.text == b.text
       else && |a.text| > 0 && |b.text| > 0 && Closes(a.text, 1).Some? && Closes(b.text, 1).Some?
            && Meaning(b.text) == Normals(Meaning(a.text))
  }

  /** A program and its single-line form have the same tokens. */
  predicate SameStream(s: string, t: string) {
    && Words(s).Some? && Words(t).Some?
    && var a, b := Words(s).value, Words(t).value;
       |a| == |b| && forall i | 0 <= i < |a| :: SameToken(a[i], b[i])
  }

  lemma WrittenSame(w: Word)
    requires Shape(w)
    ensures SameToken(w, Written(w))
  {
    ShapeKind(w);
    if w.kind == T.StrLit {
      MinStrKeepsMeaning(w.text);
      hide MinStr, Meaning;
    }
  }

  /** Main theorem, for every accepted program: it has a single-line form, and lexing that form gives the
      tokens back exactly when no neighbours fuse; the tokens then denote the same. */
  lemma RoundTrip(s: string)
    requires Words(s).Some?
    ensures Nonempty(Words(s).value) && Minified(s) == Some(Out(Words(s).value))
    ensures Words(Minified(s).value) == Some(AllWritten(Words(s).value)) <==> NoFuse(Words(s).value)
    ensures NoFuse(Words(s).value) ==> SameStream(s, Minified(s).value)
  {
    var ws := Words(s).value;
    WordsAreTokens(s);
    ReadBack(ws);
    hide Words, Out, NoFuse, Shape, SameToken;
    forall i | 0 <= i < |ws| ensures SameToken(ws[i], Written(ws[i])) { WrittenSame(ws[i]); }
  }

  lemma ShapeOneLine(w: Word)
    requires Shape(w)
    ensures OneLine(Piece(w))
  {
    ShapeKind(w);
    if w.kind == T.StrLit {
      MinStrOneLine(w.text);
      hide MinStr;
    } else if IsLetter(w.text[0]) {
      SpanFacts(w.text, 1, IdentC);
    } else if IsDigit(w.text[0]) {
      NumberOneLine(w);
    } else {
      SymbolOneLine(w);
    }
  }

  lemma NumberOneLine(w: Word)
    requires NumberShape(w) && IsDigit(w.text[0])
    ensures OneLine(w.text)
  {
    var t := w.text;
    if IsHexLit(t) || IsBinLit(t) {
      SpanFacts(t, 2, DigitsOf(t));
    } else {
      SpanFacts(t, 1, DigitC);
      if w.kind != T.IntLit { SpanFacts(t, Span(t, 1, DigitC) + 1, DigitC); }
    }
    hide Span;
  }

  lemma SymbolOneLine(w: Word)
    requires w.text != "" && SymbolShape(w)
    ensures OneLine(w.text)
  {
    hide Single;
  }

  lemma {:induction false} OutOneLine(ws: seq<Word>)
    requires Tokens(ws) && Nonempty(ws)
    ensures OneLine(Out(ws))
  {
    hide Shape, Piece;
    if ws != [] {
      ShapeOneLine(ws[0]);
      OutOneLine(ws[1..]);
      if |ws| >= 2 { assert OneLine(Gap(ws[0], ws[1])); }
    }
  }

  lemma {:induction false} OutWritten(ws: seq<Word>)
    requires Tokens(ws) && Nonempty(ws)
    ensures Nonempty(AllWritten(ws)) && Out(AllWritten(ws)) == Out(ws)
  {
    var vs := AllWritten(ws);
    forall i | 0 <= i < |vs| ensures vs[i].text != "" {
      WrittenShape(ws[i]);
      ShapeText(vs[i]);
    }
    if ws != [] {
      OutWritten(ws[1..]);
      assert vs[1..] == AllWritten(ws[1..]);
      WrittenShape(ws[0]);
      hide Shape, MinStr;
      assert Piece(vs[0]) == Piece(ws[0]) by { assert Written(vs[0]) == vs[0]; }
      if |ws| >= 2 { WrittenShape(ws[1]); }
    }
  }

  /** The single-line form is one line for every accepted program, and a fixed point of the minifier
      when no neighbours fuse. */
  lemma SingleLine(s: string)
    requires Words(s).Some?
    ensures Minified(s).Some? && OneLine(Minified(s).value)
    ensures NoFuse(Words(s).value) ==> Minified(Minified(s).value) == Minified(s)
  {
    var ws := Words(s).value;
    WordsAreTokens(s);
    RoundTrip(s);
    OutOneLine(ws);
    OutWritten(ws);
    hide Words, Out, NoFuse, Shape, OneLine;
  }

  // ----- token streams -----

  predicate SameWords(a: seq<Word>, b: seq<Word>) {
    |a| == |b| && forall i | 0 <= i < |a| :: SameToken(a[i], b[i])
  }

  /** No `(` stands before a token that starts with `*`: written together they would open a comment. */
  predicate NoOpener(ws: seq<Word>) {
    forall k | 0 <= k < |ws| - 1 :: !(ws[k].text == "(" && ws[k + 1].text != "" && ws[k + 1].text[0] == '*')
  }

  predicate NoStrings(ws: seq<Word>) { forall k | 0 <= k < |ws| :: ws[k].kind != T.StrLit }

  /** A token that fuses is no string. */
  lemma FusesPlain(ws: seq<Word>)
    requires ws != [] && Tokens(ws) && Nonempty(ws) && FusesAt(ws, 0)
    ensures ws[0].kind != T.StrLit && Piece(ws[0]) == ws[0].text
  {
    ShapeKind(ws[0]);
    hide Shape, MinStr, RunsOn;
    assert ws[0].text[0] != '"';
  }

  /** What is passed over at the start of a written text is a comment. */
  lemma SkipsComment(ws: seq<Word>)
    requires ws != [] && Tokens(ws) && Nonempty(ws) && FusesAt(ws, 0) && First(Out(ws)).Skip?
    ensures ws[0].text[0] == '/' ==> First(Out(ws)).n == |Out(ws)|
    ensures ws[0].text[0] == '/' || (ws[0].text == "(" && ws[1].text[0] == '*')
  {
    var s := Out(ws);
    OutHead(ws);
    TokenStart(ws[0]);
    OutOneLine(ws);
    if s[0] == '/' {
      hide Shape, Out, Span;
      SpanFacts(s, 1, LineC);
    } else {
      hide Shape, Out, Span, CommentEnd, ScanIdent, ScanNumber;
      assert s[0] == '(';
    }
  }

  /** A token starts with no white space and no `#`. */
  lemma TokenStart(w: Word)
    requires Shape(w)
    ensures !IsWhitespace(w.text[0]) && w.text[0] != '#'
  {
    hide Span, Closes, Classify, NumberShape, Pair;
  }

  /** A first token that fuses changes the stream, or opens a comment. */
  lemma FuseChanges(ws: seq<Word>)
    requires ws != [] && Tokens(ws) && Nonempty(ws) && FusesAt(ws, 0) && NoOpener(ws)
    ensures Words(Out(ws)).Some? ==> !SameWords(ws, Words(Out(ws)).value)
  {
    var s := Out(ws);
    TailStops(ws);
    WrittenShape(ws[0]);
    Boundary(Written(ws[0]), Tail(ws));
    OutHead(ws);
    FusesPlain(ws);
    hide Shape, Stops, Tail, First, Piece;
    assert First(s) != Take(ws[0].kind, |ws[0].text|);
    if Words(s).Some? {
      match First(s)
      case Take(_, n) =>
        FirstWord(s);
        hide Words, FusesAt;
        assert |s[..n]| == n;
      case Skip(n) =>
        SkipsComment(ws);
        assert s[n..] == "";
      case Reject =>
    }
  }

  lemma {:induction false} StreamBreaks(ws: seq<Word>)
    requires Tokens(ws) && Nonempty(ws) && NoOpener(ws) && !NoFuse(ws)
    ensures Words(Out(ws)).Some? ==> !SameWords(ws, Words(Out(ws)).value)
    decreases |ws|
  {
    NoFuseCons(ws);
    hide Shape, Words, Out, NoFuse, SameToken;
    if FusesAt(ws, 0) {
      FuseChanges(ws);
    } else {
      hide FusesAt;
      ReadFirst(ws);
      assert NoOpener(ws[1..]);
      StreamBreaks(ws[1..]);
      ConsStream(ws, Words(Out(ws[1..])));
    }
  }

  lemma ConsStream(ws: seq<Word>, rest: Option<seq<Word>>)
    requires ws != [] && (rest.Some? ==> !SameWords(ws[1..], rest.value))
    ensures var x := Cons(Written(ws[0]), rest); x.Some? ==> !SameWords(ws, x.value)
  {
    hide SameToken, Written;
    if rest.Some? {
      var x := [Written(ws[0])] + rest.value;
      assert ws[1..] == ws[1..|ws|] && x[1..] == rest.value;
    }
  }

  /** Without strings the same stream is the same tokens. */
  lemma StringlessSame(ws: seq<Word>, b: seq<Word>)
    requires NoStrings(ws) && SameWords(ws, b)
    ensures b == AllWritten(ws)
  {
    forall i | 0 <= i < |ws| ensures b[i] == AllWritten(ws)[i] {
      assert SameToken(ws[i], b[i]);
    }
  }

  /** What a compiler sees: for every accepted program without string literals, and for every one in which
      no `(` stands before a `*`, the single-line form has the same stream exactly when no neighbours fuse. */
  lemma StreamIff(s: string)
    requires Words(s).Some? && (NoStrings(Words(s).value) || NoOpener(Words(s).value))
    ensures Minified(s).Some? && Nonempty(Words(s).value)
    ensures SameStream(s, Minified(s).value) <==> NoFuse(Words(s).value)
  {
    var ws := Words(s).value;
    WordsAreTokens(s);
    RoundTrip(s);
    hide Words, Out, NoFuse, Shape, SameToken;
    var t := Minified(s).value;
    if SameStream(s, t) && !NoFuse(ws) {
      assert SameWords(ws, Words(t).value);
      if NoOpener(ws) { StreamBreaks(ws); } else { StringlessSame(ws, Words(t).value); }
    }
  }

  /** Two separate `=` become one `==`: operator boundaries do need a blank. */
  lemma FusingExample()
    ensures Minified("= =") == Some("==") && Words("==") == Some([Word(T.EqEq, "==")])
  {
    var w := Word(T.Eq, "=");
    NoWords();
    assert First("=" + "") == Take(T.Eq, 1);
    WordsTake("=", "", T.Eq);
    assert "=" + "" == "=" && [w] + [] == [w];
    WordsBlank("=");
    assert First("=" + (" " + "=")) == Take(T.Eq, 1);
    WordsTake("=", " " + "=", T.Eq);
    assert "=" + (" " + "=") == "= =" && [w] + [w] == [w, w];
    assert First("==" + "") == Take(T.EqEq, 2);
    WordsTake("==", "", T.EqEq);
    assert "==" + "" == "==" && [Word(T.EqEq, "==")] + [] == [Word(T.EqEq, "==")];
    assert [w, w][1..] == [w];
    assert Out([w]) == "=";
    assert Out([w, w]) == "==";
    hide Words, First;
  }

  lemma NoWords()
    ensures Words("") == Some([])
  {
  }
}
