/**
 How short a single-line form can be.

 A token stream needs its tokens and one character between two words that would run together.  The minifier
 writes exactly that, with one exception: it also separates a binary literal from a digit from 2 to 9, which
 the lexer reads apart anyway.
 */
module MinLength {
  import opened Wrappers
  import opened Chars
  import T = Tokens
  import opened LexerSpec
  import opened Lexemes
  import opened TokenBoundary
  import opened MinString
  import opened MinifySpec

  /** A binary literal ends before a digit it cannot hold. */
  predicate Loose(a: Word, b: Word)
    requires a.text != "" && b.text != ""
  {
    IsBinLit(a.text) && '2' <= b.text[0] <= '9'
  }

  /** Two words that the lexer reads as one, or not at all, when nothing stands between them. */
  predicate Merge(a: Word, b: Word)
    requires a.text != "" && b.text != ""
  {
    (IsLetter(a.text[0]) || IsDigit(a.text[0])) && IsWordChar(b.text[0]) && !Loose(a, b)
  }

  /** The characters of the tokens, and one for each pair of neighbours that merge. */
  function Need(ws: seq<Word>): nat
    requires Nonempty(ws)
  {
    if ws == [] then 0
    else |ws[0].text| + (if |ws| > 1 && Merge(ws[0], ws[1]) then 1 else 0) + Need(ws[1..])
  }

  /** The neighbours that a binary literal keeps apart. */
  function Looses(ws: seq<Word>): nat
    requires Nonempty(ws)
  {
    if ws == [] then 0 else (if |ws| > 1 && Loose(ws[0], ws[1]) then 1 else 0) + Looses(ws[1..])
  }

  // ----- every text needs that much -----

  lemma RestNonempty(ws: seq<Word>)
    requires ws != [] && Nonempty(ws)
    ensures Nonempty(ws[1..])
  {}

  lemma ConsNonempty(w: Word, ws: seq<Word>)
    requires Nonempty(ws) && w.text != ""
    ensures Nonempty([w] + ws)
  {}

  lemma NeedCons(w: Word, ws: seq<Word>)
    requires Nonempty(ws) && w.text != ""
    ensures Nonempty([w] + ws)
    ensures Need([w] + ws) == |w.text| + (if ws != [] && Merge(w, ws[0]) then 1 else 0) + Need(ws)
  {
    ConsNonempty(w, ws);
    hide Merge;
    assert ([w] + ws)[1..] == ws;
  }

  lemma WordStart(w: Word)
    requires Shape(w)
    ensures IsWordChar(w.text[0]) <==> IsLetter(w.text[0]) || IsDigit(w.text[0])
  {
    hide Span, Closes, Classify, NumberShape, Single, Pair;
  }

  lemma BinaryNotDecimal(t: string)
    requires IsBinLit(t)
    ensures IsDigit(t[0]) && !IsDecimal(t) && forall d :: !PairFuses(t, d)
  {
    assert !IsDigit(t[1]);
  }

  /** Behind a token that the lexer has read, no word follows that merges with it. */
  lemma StoppedApart(a: Word, b: Word, r: string)
    requires Shape(a) && Shape(b) && r != "" && b.text != "" && r[0] == b.text[0]
    ensures a.text != ""
    ensures Stops(a.text, r) ==> !Merge(a, b)
    ensures Gap(a, b) == " " && Stops(a.text, r) ==> Loose(a, b)
    ensures Gap(a, b) == " " && Loose(a, b) ==> Stops(a.text, r)
    ensures Gap(a, b) == " " <==> Merge(a, b) || Loose(a, b)
  {
    ShapeText(a);
    LastChar(a);
    WordStart(b);
    if IsBinLit(a.text) { BinaryNotDecimal(a.text); }
    hide Shape, IsDecimal, RunsOn, PairFuses;
  }

  /** For every text that lexes: it is at least as long as its tokens need, and longer when it starts with
      something that is skipped. */
  lemma {:induction false} NeedBound(t: string)
    requires Words(t).Some?
    ensures Nonempty(Words(t).value) && Need(Words(t).value) <= |t|
    ensures t != "" && First(t).Skip? ==> Need(Words(t).value) < |t|
    decreases |t|
  {
    WordsAreTokens(t);
    TokensNonempty(Words(t).value);
    if t != "" {
      hide First, Need, Nonempty;
      match First(t)
      case Reject =>
      case Skip(n) => NeedBound(t[n..]);
      case Take(kind, n) =>
        NeedBound(t[n..]);
        TakeBound(t);
    }
  }

  lemma TakeBound(t: string)
    requires t != "" && First(t).Take? && Words(t[First(t).n..]).Some?
    requires var rest := t[First(t).n..];
             && Nonempty(Words(rest).value) && Need(Words(rest).value) <= |rest|
             && (rest != "" && First(rest).Skip? ==> Need(Words(rest).value) < |rest|)
    ensures Words(t).Some? && Nonempty(Words(t).value) && Need(Words(t).value) <= |t|
  {
    hide First, Need, Nonempty, Merge, Shape;
    var n := First(t).n;
    var w, rest := Word(First(t).kind, t[..n]), t[n..];
    var ws := Words(rest).value;
    FirstShape(t);
    ShapeText(w);
    NeedCons(w, ws);
    if rest == "" {
      NoWords();
    } else if First(rest).Take? {
      FirstWord(rest);
      TakenApart(t);
    }
  }

  /** Two tokens that the lexer takes one behind the other do not merge. */
  lemma TakenApart(t: string)
    requires t != "" && First(t).Take?
    requires var rest := t[First(t).n..]; rest != "" && First(rest).Take?
    ensures var n := First(t).n;
            var rest := t[n..];
            !Merge(Word(First(t).kind, t[..n]), Word(First(rest).kind, rest[..First(rest).n]))
  {
    hide First, Stops, Merge, Shape, Gap, Loose;
    var n := First(t).n;
    var rest := t[n..];
    var w, v := Word(First(t).kind, t[..n]), Word(First(rest).kind, rest[..First(rest).n]);
    FirstShape(t);
    FirstShape(rest);
    assert t == w.text + rest;
    Boundary(w, rest);
    StoppedApart(w, v, rest);
  }

  // ----- what the minifier writes -----

  /** Writing a token changes nothing that separation depends on. */
  lemma WrittenPair(a: Word, b: Word)
    requires Shape(a) && Shape(b)
    ensures Written(a).text != "" && Written(b).text != "" && a.text != "" && b.text != ""
    ensures Merge(Written(a), Written(b)) == Merge(a, b) && Loose(a, b) == Loose(Written(a), Written(b))
    ensures Gap(a, b) == (if Merge(a, b) || Loose(a, b) then " " else "") && !(Merge(a, b) && Loose(a, b))
  {
    hide Shape, Written, IsWordChar;
    WrittenShape(a);
    WrittenShape(b);
    ShapeText(Written(a));
    ShapeText(Written(b));
    ShapeText(a);
    ShapeText(b);
    StringNotBinary(a);
    GapIs(a, b);
  }

  lemma StringNotBinary(a: Word)
    requires Shape(a)
    ensures Written(a).text != "" && a.text != "" && IsBinLit(Written(a).text) == IsBinLit(a.text)
  {
    WrittenShape(a);
    ShapeKind(a);
    hide Shape, Written;
  }

  lemma GapIs(a: Word, b: Word)
    requires Shape(a) && Shape(b)
    ensures a.text != "" && b.text != "" && Gap(a, b) == (if Merge(a, b) || Loose(a, b) then " " else "")
  {
    hide Shape, Stops;
    ShapeText(b);
    StoppedApart(a, b, b.text);
  }

  /** The length of the single-line form: what its tokens need, and a blank behind each binary literal
      before a digit that it cannot hold. */
  lemma {:induction false} OutLength(ws: seq<Word>)
    requires Tokens(ws)
    ensures Nonempty(ws) && Nonempty(AllWritten(ws)) && |Out(ws)| == Need(AllWritten(ws)) + Looses(ws)
    decreases |ws|
  {
    hide Shape, Written, Merge, Loose, Gap;
    TokensNonempty(ws);
    WrittenTokens(ws);
    if ws == [] {
    } else {
      OutLength(ws[1..]);
      AllWrittenCons(ws);
      var v, vs := Written(ws[0]), AllWritten(ws[1..]);
      hide AllWritten;
      assert v.text == Piece(ws[0]) by { PieceIs(ws[0]); }
      NeedCons(v, vs);
      if |ws| > 1 {
        WrittenPair(ws[0], ws[1]);
        assert vs[0] == Written(ws[1]);
        OutStep(ws);
      }
    }
  }

  lemma PieceIs(w: Word)
    ensures Written(w).text == Piece(w) && Written(w).kind == w.kind
  {}

  lemma WrittenTokens(ws: seq<Word>)
    requires Tokens(ws)
    ensures Nonempty(AllWritten(ws)) && Tokens(AllWritten(ws))
  {
    hide Shape, Written;
    forall i | 0 <= i < |ws| ensures Shape(AllWritten(ws)[i]) { WrittenShape(ws[i]); }
    TokensNonempty(AllWritten(ws));
  }

  /** Main theorem, for every accepted program: no text with these tokens is shorter than the single-line
      form by more than the blanks that binary literals make superfluous. */
  lemma Shortest(s: string, t: string)
    requires Words(s).Some? && Words(t) == Some(AllWritten(Words(s).value))
    ensures Minified(s).Some? && Nonempty(Words(s).value)
    ensures |Minified(s).value| <= |t| + Looses(Words(s).value)
  {
    var ws := Words(s).value;
    WordsAreTokens(s);
    OutLength(ws);
    NeedBound(t);
    hide Words, Need, Looses, Out;
  }

  // ----- every blank -----

  /** The single-line form without the blank behind token `k`. */
  function Dropped(ws: seq<Word>, k: nat): string
    requires k + 1 < |ws| && Nonempty(ws)
  {
    if k == 0 then Piece(ws[0]) + Out(ws[1..])
    else Piece(ws[0]) + (Gap(ws[0], ws[1]) + Dropped(ws[1..], k - 1))
  }

  predicate BlankAt(ws: seq<Word>, k: nat)
    requires Nonempty(ws)
  {
    k + 1 < |ws| && Gap(ws[k], ws[k + 1]) == " "
  }

  lemma OutStep(ws: seq<Word>)
    requires Nonempty(ws) && |ws| > 1
    ensures |Out(ws)| == |Piece(ws[0])| + |Gap(ws[0], ws[1])| + |Out(ws[1..])|
  {
    hide Gap, Piece;
  }

  lemma {:induction false} DroppedLength(ws: seq<Word>, k: nat)
    requires Nonempty(ws) && BlankAt(ws, k)
    ensures |Dropped(ws, k)| == |Out(ws)| - 1
  {
    hide Gap, Piece, Out, Nonempty;
    RestNonempty(ws);
    OutStep(ws);
    if k > 0 {
      assert ws[1..][k - 1] == ws[k] && ws[1..][k] == ws[k + 1];
      DroppedLength(ws[1..], k - 1);
    }
  }

  lemma {:induction false} DroppedHead(ws: seq<Word>, k: nat)
    requires Tokens(ws) && k + 1 < |ws|
    ensures Nonempty(ws) && Dropped(ws, k) != "" && Dropped(ws, k)[0] == ws[0].text[0]
  {
    hide Shape, Gap, Out;
    TokensNonempty(ws);
    WrittenShape(ws[0]);
    PieceIs(ws[0]);
    ShapeText(Written(ws[0]));
  }

  /** What follows the first token when a later blank is dropped. */
  function Behind(ws: seq<Word>, k: nat): string
    requires 0 < k && k + 1 < |ws| && Nonempty(ws)
  {
    Gap(ws[0], ws[1]) + Dropped(ws[1..], k - 1)
  }

  /** It runs on from the first token no more than before. */
  lemma BehindStops(ws: seq<Word>, k: nat)
    requires 0 < k && Tokens(ws) && Nonempty(ws) && BlankAt(ws, k) && !FusesAt(ws, 0)
    ensures Piece(ws[0]) != "" && Stops(Piece(ws[0]), Behind(ws, k))
  {
    hide Shape, Piece, FusesAt, Dropped, Written, Stops, Out, RunsOn, IsWordChar;
    var t := Piece(ws[0]);
    WrittenShape(ws[0]);
    PieceIs(ws[0]);
    ShapeText(Written(ws[0]));
    var vs := ws[1..];
    assert vs[0] == ws[1];
    DroppedHead(vs, k - 1);
    if Gap(ws[0], ws[1]) == "" {
      assert Behind(ws, k) == Dropped(vs, k - 1);
      hide Gap;
      DotBehind(ws, k);
      ShutBehind(ws, t, Behind(ws, k));
    } else {
      StopsGap(t, Behind(ws, k));
    }
  }

  lemma ShutBehind(ws: seq<Word>, t: string, r: string)
    requires |ws| > 1 && Tokens(ws) && Nonempty(ws) && !FusesAt(ws, 0) && Gap(ws[0], ws[1]) == ""
    requires t == Piece(ws[0]) && t != "" && t[0] == ws[0].text[0] && r != "" && r[0] == ws[1].text[0]
    requires RunsOn(r) ==> |ws| >= 3 && ws[1].text == "." && IsDigit(ws[2].text[0])
    ensures Stops(t, r)
  {
    hide Shape, Piece, PairFuses, IsDecimal, RunsOn, Written, Stops, Out;
    LastChar(ws[0]);
    StopsClose(t, r);
    PieceFuses(ws[0], ws[1].text[0]);
  }

  lemma DotGap(a: Word, b: Word)
    requires a.text == "." && b.text != ""
    ensures Gap(a, b) == ""
  {}

  /** A dropped blank brings no digit behind a dot. */
  lemma DotBehind(ws: seq<Word>, k: nat)
    requires 0 < k && Tokens(ws) && Nonempty(ws) && BlankAt(ws, k)
    ensures RunsOn(Dropped(ws[1..], k - 1)) ==> |ws| >= 3 && ws[1].text == "." && IsDigit(ws[2].text[0])
  {
    hide Shape, MinStr, Out;
    var vs := ws[1..];
    assert vs[0] == ws[1];
    DroppedHead(vs, k - 1);
    if vs[0].text[0] == '.' {
      DotToken(vs[0]);
      ShapeKind(vs[0]);
      assert Piece(vs[0]) == ".";
      assert k - 1 > 0 by { assert vs[k - 1] == ws[k]; }
      DroppedHead(vs[1..], k - 2);
      assert vs[1] == ws[2];
      DotGap(vs[0], vs[1]);
      hide Piece, Gap;
      assert Dropped(vs, k - 1) == "." + Dropped(vs[1..], k - 2);
    }
  }

  /** A word that is not followed by a stop is not read first. */
  lemma NotRead(w: Word, r: string, ws: seq<Word>)
    requires Shape(w) && w.text != "" && !Stops(w.text, r) && IsWordChar(w.text[|w.text| - 1])
    ensures Words(w.text + r) != Some([w] + ws)
  {
    var s := w.text + r;
    Boundary(w, r);
    LastChar(w);
    assert s[0] == w.text[0];
    WordsNoSkip(s);
    hide First, Shape, Stops, IsWordChar;
    if Words(s).Some? && First(s).Take? {
      FirstWord(s);
      assert ([w] + ws)[0] == w;
    }
  }

  lemma WordsNoSkip(s: string)
    requires s != "" && (IsLetter(s[0]) || IsDigit(s[0]))
    ensures !First(s).Skip? && (First(s).Reject? ==> Words(s).None?)
  {
    hide Span, StrBody, ScanSymbol, Classify;
  }

  /** Main theorem, for every token stream without fusing neighbours and every blank in its single-line
      form: without the blank the text is read as the same tokens if and only if the blank stands between a
      binary literal and a digit that it cannot hold. */
  lemma {:induction false} BlankIff(ws: seq<Word>, k: nat)
    requires Tokens(ws) && Nonempty(ws) && NoFuse(ws) && BlankAt(ws, k)
    ensures Words(Dropped(ws, k)) == Some(AllWritten(ws)) <==> Loose(ws[k], ws[k + 1])
    decreases |ws|
  {
    hide Shape, Words, AllWritten, NoFuse, FusesAt, Loose, Stops, Out, Written, Piece;
    NoFuseCons(ws);
    AllWrittenCons(ws);
    PieceIs(ws[0]);
    var vs := ws[1..];
    if k == 0 {
      FirstBlank(ws);
    } else {
      assert vs[k - 1] == ws[k] && vs[k] == ws[k + 1];
      BlankIff(vs, k - 1);
      BehindStops(ws, k);
      ReadBefore(ws[0], Behind(ws, k));
      BehindWords(ws, k);
      ConsSame(Written(ws[0]), Words(Behind(ws, k)), AllWritten(vs));
    }
  }

  lemma ReadBefore(w: Word, r: string)
    requires Shape(w) && Piece(w) != "" && Stops(Piece(w), r)
    ensures Words(Piece(w) + r) == Cons(Written(w), Words(r))
  {
    hide Shape, Stops, Words, First, Piece;
    WrittenShape(w);
    PieceIs(w);
    Boundary(Written(w), r);
    WordsTake(Piece(w), r, w.kind);
  }

  lemma BehindWords(ws: seq<Word>, k: nat)
    requires 0 < k && k + 1 < |ws| && Nonempty(ws)
    ensures Words(Behind(ws, k)) == Words(Dropped(ws[1..], k - 1))
  {
    WordsBlank(Dropped(ws[1..], k - 1));
    hide Words, Dropped;
    assert "" + Dropped(ws[1..], k - 1) == Dropped(ws[1..], k - 1);
  }

  lemma FirstBlank(ws: seq<Word>)
    requires Tokens(ws) && Nonempty(ws) && NoFuse(ws) && BlankAt(ws, 0)
    ensures Words(Dropped(ws, 0)) == Some(AllWritten(ws)) <==> Loose(ws[0], ws[1])
  {
    hide Shape, Words, AllWritten, NoFuse, FusesAt, Loose, Stops, Out, Written, Piece, Merge;
    var w, vs := Written(ws[0]), ws[1..];
    NoFuseCons(ws);
    AllWrittenCons(ws);
    PieceIs(ws[0]);
    WrittenShape(ws[0]);
    ShapeText(w);
    OutHead(vs);
    assert vs[0] == ws[1];
    WrittenGap(ws[0], ws[1]);
    StoppedApart(w, ws[1], Out(vs));
    if Loose(ws[0], ws[1]) {
      ReadBefore(ws[0], Out(vs));
      ReadBack(vs);
    } else {
      NotRead(w, Out(vs), AllWritten(vs));
    }
  }

  lemma WrittenGap(a: Word, b: Word)
    requires Shape(a) && Shape(b)
    ensures a.text != "" && b.text != "" && Written(a).text != ""
    ensures Gap(Written(a), b) == Gap(a, b) && Loose(Written(a), b) == Loose(a, b)
    ensures Gap(a, b) == " " ==> IsWordChar(Written(a).text[|Written(a).text| - 1])
  {
    hide Shape, Written, IsWordChar;
    WrittenShape(a);
    ShapeText(a);
    ShapeText(b);
    ShapeText(Written(a));
    StringNotBinary(a);
  }

  /** The single-line form of a program without fusing neighbours is a shortest text with its tokens if and
      only if no binary literal stands before a digit that it cannot hold. */
  lemma ShortestIff(s: string)
    requires Words(s).Some?
    ensures Minified(s).Some? && Nonempty(Words(s).value)
    ensures NoFuse(Words(s).value) ==>
              ((forall t | Words(t) == Some(AllWritten(Words(s).value)) :: |Minified(s).value| <= |t|)
               <==> Looses(Words(s).value) == 0)
  {
    var ws := Words(s).value;
    WordsAreTokens(s);
    TokensNonempty(ws);
    hide Words, AllWritten, NoFuse, Looses, Out, Shape;
    if Looses(ws) == 0 {
      forall t | Words(t) == Some(AllWritten(ws)) ensures |Minified(s).value| <= |t| { Shortest(s, t); }
    } else if NoFuse(ws) {
      var k := FindLoose(ws);
      BlankIff(ws, k);
      DroppedLength(ws, k);
      assert |Dropped(ws, k)| < |Minified(s).value|;
    }
  }

  lemma {:induction false} FindLoose(ws: seq<Word>) returns (k: nat)
    requires Tokens(ws) && Nonempty(ws) && Looses(ws) > 0
    ensures BlankAt(ws, k) && Loose(ws[k], ws[k + 1])
  {
    hide Shape, Loose, Merge, Gap;
    if |ws| > 1 && Loose(ws[0], ws[1]) {
      k := 0;
      GapIs(ws[0], ws[1]);
    } else {
      RestNonempty(ws);
      k := FindLoose(ws[1..]);
      k := k + 1;
    }
  }

  /** `0b1 2` keeps its blank, and `0b12` has the same tokens. */
  lemma LooseExample()
    ensures var ws := [Word(T.IntLit, "0b1"), Word(T.IntLit, "2")];
            Nonempty(ws) && Out(ws) == "0b1 2" && Words("0b12") == Some(ws)
  {
    var a, b := Word(T.IntLit, "0b1"), Word(T.IntLit, "2");
    var ws := [a, b];
    assert Shape(a) && Shape(b);
    hide Shape;
    assert Tokens(ws) && Nonempty(ws) && NoFuse(ws) && BlankAt(ws, 0) && Loose(a, b);
    BlankIff(ws, 0);
    assert ws[1..] == [b] && Out([b]) == "2";
    assert AllWritten(ws) == ws;
    assert Dropped(ws, 0) == "0b12" && Out(ws) == "0b1 2";
  }
}
