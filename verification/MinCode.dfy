/**
 The code inside an interpolation under the minifier: control characters become blanks.

 For the lexer that is no change between tokens.  Inside a nested string it changes the token, and behind a
 line comment it changes where the comment ends.  The tokens of the code survive exactly when neither
 happens.
 */
module MinCode {
  import opened Wrappers
  import opened Chars
  import T = Tokens
  import opened LexerSpec
  import opened Lexemes
  import opened TokenBoundary
  import opened MinString
  import opened MinifySpec

  /** A comment that runs to the end of the line. */
  predicate LineComment(s: string) { s != "" && (s[0] == '#' || (|s| > 1 && s[0] == '/' && s[1] == '/')) }

  /** No nested string holds a control character, and behind a line comment there is no token. */
  predicate Survives(s: string)
    decreases |s|
  {
    if s == "" then true
    else
      match First(s)
      case Reject => true
      case Take(kind, n) => (kind == T.StrLit ==> OneLine(s[..n])) && Survives(s[n..])
      case Skip(n) => if LineComment(s) then Words(s[n..]) == Some([]) else Survives(s[n..])
  }

  // ----- the scanners do not tell control characters from blanks -----

  lemma SpaceIn(c: char, cls: Class)
    requires cls != LineC
    ensures In(Space(c), cls) == In(c, cls)
  {}

  lemma {:induction false} SpanSpaced(s: string, i: nat, cls: Class)
    requires i <= |s| && cls != LineC
    ensures Span(Spaced(s), i, cls) == Span(s, i, cls)
    decreases |s| - i
  {
    hide In, Space;
    if i < |s| {
      SpaceIn(s[i], cls);
      SpanSpaced(s, i + 1, cls);
    }
  }

  lemma {:induction false} SpanClass(s: string, i: nat, cls: Class)
    requires i <= |s| && cls != LineC
    ensures forall k | i <= k < Span(s, i, cls) :: Space(s[k]) == s[k]
    decreases |s| - i
  {
    if i < |s| && In(s[i], cls) { SpanClass(s, i + 1, cls); }
  }

  lemma SpaceEqual(c: char, d: char)
    requires !IsControl(d) && d != ' '
    ensures Space(c) == d <==> c == d
  {}

  lemma {:induction false} IdentSpaced(s: string)
    requires s != "" && IsLetter(s[0]) && ScanIdent(s, 0, Default).Lexeme?
    ensures ScanIdent(Spaced(s), 0, Default) == ScanIdent(s, 0, Default)
  {
    var e := Span(s, 1, IdentC);
    SpanSpaced(s, 1, IdentC);
    SpanClass(s, 1, IdentC);
    hide Span, Classify;
    assert Spaced(s)[0..e] == s[0..e];
  }

  lemma NumberEndSpaced(s: string, e: nat, kind: T.TokenKind)
    requires e <= |s|
    ensures NumberEnd(Spaced(s), e, kind) == NumberEnd(s, e, kind)
  {
    if e < |s| { SpanSpaced(s, e + 1, IdentC); }
    hide Span;
  }

  lemma RadixSpaced(s: string, e: nat, cls: Class)
    requires e <= |s| && cls != LineC
    ensures ScanRadix(Spaced(s), e, cls) == ScanRadix(s, e, cls)
  {
    if e < |s| { SpaceIn(s[e], cls); }
    SpanSpaced(s, e, cls);
    NumberEndSpaced(s, Span(s, e, cls), T.IntLit);
    hide Span, NumberEnd, In;
  }

  lemma DigitSpaced(c: char)
    ensures IsDigit(Space(c)) == IsDigit(c)
  {}

  lemma DecimalSpaced(s: string, i: nat)
    requires i < |s|
    ensures ScanDecimal(Spaced(s), i) == ScanDecimal(s, i)
  {
    hide NumberEnd, IsDigit, Space;
    SpanSpaced(s, i + 1, DigitC);
    var e := Span(s, i + 1, DigitC);
    if e + 1 < |s| {
      SpanSpaced(s, e + 1, DigitC);
      NumberEndSpaced(s, Span(s, e + 1, DigitC), T.FloatLit);
      DigitSpaced(s[e + 1]);
      SpaceEqual(s[e], '.');
    }
    NumberEndSpaced(s, e, T.IntLit);
    hide Span;
  }

  lemma NumberSpaced(s: string)
    requires s != "" && IsDigit(s[0])
    ensures IsDigit(Spaced(s)[0]) && ScanNumber(Spaced(s), 0) == ScanNumber(s, 0)
  {
    hide ScanRadix, ScanDecimal, Space, IsDigit;
    DigitSpaced(s[0]);
    SpaceEqual(s[0], '0');
    if |s| > 1 {
      RadixSpaced(s, 2, HexC);
      RadixSpaced(s, 2, BinC);
      SpaceEqual(s[1], 'x');
      SpaceEqual(s[1], 'X');
      SpaceEqual(s[1], 'b');
      SpaceEqual(s[1], 'B');
    }
    DecimalSpaced(s, 0);
  }

  lemma {:induction false} InterpSame(s: string, j: nat, depth: nat)
    requires j <= |s|
    ensures InterpEnd(Spaced(s), j, depth) == InterpEnd(s, j, depth)
    decreases |s| - j
  {
    if j < |s| && depth > 0 {
      assert Deeper(Space(s[j]), depth) == Deeper(s[j], depth);
      hide Space, Deeper;
      InterpSame(s, j + 1, Deeper(s[j], depth));
    }
  }

  lemma {:induction false} StringSpaced(s: string, i: nat)
    requires i <= |s| && StrBody(s, i, 0, false).Closed?
    ensures StrBody(Spaced(s), i, 0, false) == StrBody(s, i, 0, false)
    decreases |s| - i
  {
    if i < |s| && s[i] != '"' {
      if s[i] != '\\' {
        StringSpaced(s, i + 1);
      } else if i + 1 < |s| {
        if IsSimpleEscape(s[i + 1]) {
          StringSpaced(s, i + 2);
        } else if s[i + 1] == 'x' {
          if i + 3 < |s| && IsHex(s[i + 2]) && IsHex(s[i + 3]) { StringSpaced(s, i + 4); }
        } else if s[i + 1] == '(' {
          InterpSame(s, i + 2, 1);
          StringSpaced(s, InterpEnd(s, i + 2, 1));
        }
      }
    }
  }

  lemma {:induction false} CommentSame(s: string, j: nat, depth: nat)
    requires j <= |s|
    ensures CommentEnd(Spaced(s), j, depth) == CommentEnd(s, j, depth)
    decreases |s| - j
  {
    if j < |s| && depth > 0 {
      if j + 1 < |s| && s[j] == '(' && s[j + 1] == '*' { CommentSame(s, j + 2, depth + 1); }
      else if j + 1 < |s| && s[j] == '*' && s[j + 1] == ')' { CommentSame(s, j + 2, depth - 1); }
      else { CommentSame(s, j + 1, depth); }
    }
  }

  lemma PairSpaced(c: char, d: char)
    ensures Pair(c, Space(d)) == Pair(c, d)
  {}

  lemma {:induction false} SymbolSpaced(s: string)
    requires s != "" && !IsWhitespace(s[0]) && !LineComment(s)
    ensures ScanSymbol(Spaced(s), 0, Default) == ScanSymbol(s, 0, Default)
  {
    if |s| > 1 {
      PairSpaced(s[0], s[1]);
      SpaceEqual(s[1], '*');
      SpaceEqual(s[1], '/');
    }
    if |s| > 1 && s[0] == '(' && s[1] == '*' { CommentSame(s, 2, 1); }
    hide Pair, Single, CommentEnd;
  }

  /** What comes first in the code comes first in the rewritten code. */
  lemma {:induction false} FirstSpaced(s: string)
    requires s != "" && !LineComment(s) && !First(s).Reject?
    ensures First(Spaced(s)) == First(s)
  {
    var c := s[0];
    if IsWhitespace(c) {
    } else {
      hide ScanIdent, ScanNumber, ScanSymbol, StrBody;
      assert Space(c) == c;
      if IsLetter(c) { IdentSpaced(s); }
      else if IsDigit(c) { NumberSpaced(s); }
      else if c == '"' { StringSpaced(s, 1); }
      else { SymbolSpaced(s); }
    }
  }

  /** A line comment swallows all of the rewritten code. */
  lemma {:induction false} CommentSpaced(s: string)
    requires LineComment(s)
    ensures First(Spaced(s)) == Skip(|s|) && First(s).Skip?
  {
    LineSpaced(s, 1);
    if s[0] != '#' { SpaceEqual(s[1], '/'); }
    hide Span;
  }

  lemma {:induction false} LineSpaced(s: string, i: nat)
    requires i <= |s|
    ensures Span(Spaced(s), i, LineC) == |s|
    decreases |s| - i
  {
    if i < |s| { LineSpaced(s, i + 1); }
  }

  // ----- tokens -----

  lemma SpacedRest(s: string, n: nat)
    requires n <= |s|
    ensures Spaced(s)[n..] == Spaced(s[n..]) && Spaced(s)[..n] == Spaced(s[..n])
  {}

  lemma SpacedSame(t: string)
    ensures Spaced(t) == t <==> OneLine(t)
  {
    if OneLine(t) {
      assert forall i | 0 <= i < |t| :: Spaced(t)[i] == t[i];
    }
    if Spaced(t) == t {
      forall i | 0 <= i < |t| ensures !IsControl(t[i]) { assert Spaced(t)[i] == t[i]; }
    }
  }

  /** Only strings can hold a control character. */
  lemma {:induction false} TakenOneLine(s: string)
    requires s != "" && First(s).Take?
    ensures First(s).kind != T.StrLit ==> OneLine(s[..First(s).n])
  {
    FirstShape(s);
    var w := Word(First(s).kind, s[..First(s).n]);
    hide First, Shape;
    if w.kind != T.StrLit { ShapeOneLine(w); }
  }

  lemma WordsSkip(s: string, n: nat)
    requires s != "" && First(s) == Skip(n)
    ensures 0 < n <= |s| && Words(s) == Words(s[n..])
  {
    hide First;
  }

  lemma WordsFirst(s: string, kind: T.TokenKind, n: nat)
    requires s != "" && First(s) == Take(kind, n)
    ensures 0 < n <= |s| && Words(s) == Cons(Word(kind, s[..n]), Words(s[n..]))
  {
    hide First;
  }

  lemma ConsIff(v: Word, w: Word, x: Option<seq<Word>>, y: Option<seq<Word>>)
    requires y.Some?
    ensures Cons(v, x) == Cons(w, y) <==> v == w && x == y
  {
    if Cons(v, x) == Cons(w, y) {
      assert ([v] + x.value)[0] == ([w] + y.value)[0];
      assert x.value == ([v] + x.value)[1..] == ([w] + y.value)[1..] == y.value;
    }
  }

  /** Main theorem.  For all code that the lexer accepts: the rewritten code has the same tokens if and only
      if no nested string holds a control character and no token follows a line comment. */
  lemma {:induction false} CodeSurvivesIff(s: string)
    requires Words(s).Some?
    ensures Words(Spaced(s)) == Words(s) <==> Survives(s)
    decreases |s|
  {
    hide First, Spaced, Words, OneLine;
    if s == "" {
      EmptySpaced();
    } else if LineComment(s) {
      CommentSpaced(s);
      var n := First(s).n;
      WordsSkip(s, n);
      WordsSkip(Spaced(s), |s|);
      assert Spaced(s)[|s|..] == "";
      NoWords();
    } else {
      NotRejected(s);
      FirstSpaced(s);
      match First(s)
      case Skip(n) =>
        WordsSkip(s, n);
        WordsSkip(Spaced(s), n);
        SpacedRest(s, n);
        CodeSurvivesIff(s[n..]);
      case Take(kind, n) =>
        WordsFirst(s, kind, n);
        WordsFirst(Spaced(s), kind, n);
        SpacedRest(s, n);
        SpacedSame(s[..n]);
        TakenOneLine(s);
        CodeSurvivesIff(s[n..]);
        ConsIff(Word(kind, Spaced(s[..n])), Word(kind, s[..n]), Words(Spaced(s[n..])), Words(s[n..]));
    }
  }

  lemma EmptySpaced()
    ensures Spaced("") == ""
  {}

  lemma NotRejected(s: string)
    requires s != "" && Words(s).Some?
    ensures !First(s).Reject?
  {
    hide First;
  }

  // ----- literals -----

  /** The code of every interpolation lexes. */
  predicate Lexes(ps: seq<Part>) { forall i | 0 <= i < |ps| && ps[i].Code? :: Words(ps[i].text).Some? }

  /** The same bytes, and code with the same tokens. */
  predicate Alike(p: Part, q: Part) {
    if p.Code? then q.Code? && Words(q.text) == Words(p.text) else q == p
  }

  predicate AllAlike(ps: seq<Part>, qs: seq<Part>) {
    |ps| == |qs| && forall i | 0 <= i < |ps| :: Alike(ps[i], qs[i])
  }

  predicate AllSurvive(ps: seq<Part>) { forall i | 0 <= i < |ps| && ps[i].Code? :: Survives(ps[i].text) }

  lemma PartSurvivesIff(p: Part)
    requires p.Code? ==> Words(p.text).Some?
    ensures Alike(p, Normal(p)) <==> (p.Code? ==> Survives(p.text))
  {
    hide Words, Survives, Spaced;
    if p.Code? { CodeSurvivesIff(p.text); }
  }

  lemma {:induction false} NormalAt(ps: seq<Part>, i: nat)
    requires i < |ps|
    ensures |Normals(ps)| == |ps| && Normals(ps)[i] == Normal(ps[i])
  {
    hide Normal;
    if |ps| > 1 { NormalAt(ps[1..], if i > 0 then i - 1 else 0); }
  }

  /** Main theorem.  The minified literal denotes the same bytes and code with the same tokens if and only if
      the code of each of its interpolations survives. */
  lemma LiteralSurvivesIff(t: string)
    requires t != "" && t[0] == '"' && Closes(t, 1) == Some(|t|) && Lexes(Meaning(t))
    ensures var u := MinStr(t);
            u != "" && Closes(u, 1).Some? && (AllAlike(Meaning(t), Meaning(u)) <==> AllSurvive(Meaning(t)))
  {
    hide *;
    MinStrKeepsMeaning(t);
    NormalsSurviveIff(Meaning(t));
  }

  lemma NormalsSurviveIff(ps: seq<Part>)
    requires Lexes(ps)
    ensures AllAlike(ps, Normals(ps)) <==> AllSurvive(ps)
  {
    hide Words, Survives, Spaced, Alike, Normals, Normal;
    forall i | 0 <= i < |ps| ensures |Normals(ps)| == |ps| && Normals(ps)[i] == Normal(ps[i]) { NormalAt(ps, i); }
    forall i | 0 <= i < |ps| ensures Alike(ps[i], Normal(ps[i])) <==> (ps[i].Code? ==> Survives(ps[i].text)) {
      PartSurvivesIff(ps[i]);
    }
    if ps == [] { NoNormals(); } else { NormalAt(ps, 0); }
    var qs := Normals(ps);
    assert AllAlike(ps, qs) <==> forall i | 0 <= i < |ps| :: Alike(ps[i], qs[i]);
    if AllAlike(ps, qs) {
      forall i | 0 <= i < |ps| && ps[i].Code? ensures Survives(ps[i].text) { assert Alike(ps[i], qs[i]); }
    }
  }

  lemma {:induction false} LineSpan(s: string, i: nat, n: nat)
    requires i <= n < |s| && s[n] == '\n' && forall k | i <= k < n :: s[k] != '\n'
    ensures Span(s, i, LineC) == n
    decreases n - i
  {
    if i < n { LineSpan(s, i + 1, n); }
  }

  lemma LineFirst(s: string, n: nat)
    requires 2 <= n < |s| && s[..2] == "//" && s[n] == '\n' && forall k | 1 <= k < n :: s[k] != '\n'
    ensures First(s) == Skip(n) && LineComment(s)
  {
    LineSpan(s, 1, n);
    assert s[0] == s[..2][0] && s[1] == s[..2][1];
    hide Span;
  }

  lemma LineEnd(s: string)
    requires s != "" && s[0] == '\n'
    ensures First(s) == Skip(1)
  {}

  function Behind(comment: string, code: string): string { "//" + comment + "\n" + code }

  lemma BehindFirst(comment: string, code: string)
    requires '\n' !in comment
    ensures var s, n := Behind(comment, code), 2 + |comment|;
            n < |s| && First(s) == Skip(n) && LineComment(s)
            && s[n..] != "" && First(s[n..]) == Skip(1) && s[n..][1..] == code
  {
    var s, n := Behind(comment, code), 2 + |comment|;
    assert s[..2] == "//" && s[n..] == "\n" + code && ("\n" + code)[1..] == code;
    forall k | 1 <= k < n ensures s[k] != '\n' { assert k >= 2 ==> s[k] == comment[k - 2]; }
    LineFirst(s, n);
    LineEnd(s[n..]);
  }

  /** So every token on the lines behind a line comment is lost, and there is such code. */
  lemma LostBehindComment(comment: string, code: string)
    requires '\n' !in comment && Words(code).Some? && Words(code).value != []
    ensures var s := Behind(comment, code);
            Words(s) == Words(code) && !Survives(s) && Words(Spaced(s)) != Words(s)
  {
    hide *;
    var s := Behind(comment, code);
    BehindFirst(comment, code);
    var n := 2 + |comment|;
    WordsSkip(s, n);
    WordsSkip(s[n..], 1);
    CommentLost(s, n);
    CodeSurvivesIff(s);
  }

  lemma CommentLost(s: string, n: nat)
    requires LineComment(s) && First(s) == Skip(n) && n <= |s| && Words(s[n..]) != Some([])
    ensures !Survives(s)
  {
    hide First, Words;
  }
}
