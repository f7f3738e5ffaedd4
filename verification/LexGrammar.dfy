/**
 The tokens of the default profile, kind by kind: the spelling of every symbol and keyword, and what names,
 numbers and string literals look like.  A text is one token of a kind exactly when it is spelled so.
 */
module LexGrammar {
  import opened Wrappers
  import opened Chars
  import T = Tokens
  import opened LexerSpec
  import opened Lexemes
  import opened TokenBoundary

  // ----- symbols and keywords -----

  /** The spelling of a symbol, and nothing for the other kinds. */
  function SymbolText(kind: T.TokenKind): string {
    if kind == T.LParen then "(" else if kind == T.RParen then ")"
    else if kind == T.LBrace then "{" else if kind == T.RBrace then "}"
    else if kind == T.Eq then "=" else if kind == T.EqEq then "==" else if kind == T.Ne then "!="
    else if kind == T.Colon then ":" else if kind == T.Dot then "." else if kind == T.Semi then ";"
    else if kind == T.Plus then "+" else if kind == T.Minus then "-"
    else if kind == T.Star then "*" else if kind == T.Slash then "/" else if kind == T.Percent then "%"
    else if kind == T.Lt then "<" else if kind == T.Gt then ">"
    else if kind == T.Le then "<=" else if kind == T.Ge then ">="
    else if kind == T.Bang then "!" else if kind == T.Tilde then "~"
    else if kind == T.And then "&&" else if kind == T.Or then "||"
    else if kind == T.Amp then "&" else if kind == T.Pipe then "|" else if kind == T.Caret then "^"
    else if kind == T.Shl then "<<" else if kind == T.Shr then ">>"
    else if kind == T.Dollar then "$" else if kind == T.At then "@"
    else ""
  }

  function KeywordText(kind: T.TokenKind): string {
    if kind == T.KwIf then "if" else if kind == T.KwEl then "el"
    else if kind == T.KwLp then "lp" else if kind == T.KwBr then "br"
    else if kind == T.KwLet then "let" else if kind == T.KwMut then "mut"
    else if kind == T.KwAs then "as" else if kind == T.KwRt then "rt"
    else if kind == T.KwSc then "sc" else if kind == T.KwMt then "mt"
    else ""
  }

  predicate Reserved(s: string) {
    s in {"if", "el", "lp", "br", "let", "mut", "as", "rt", "sc", "mt", "true", "false"}
  }

  /** A letter, and then letters and digits. */
  predicate IsName(s: string) {
    s != "" && IsLetter(s[0]) && forall k | 0 <= k < |s| :: IsLetter(s[k]) || IsDigit(s[k])
  }

  // ----- numbers -----

  predicate HexDigit(c: char) { '0' <= c <= '9' || 'a' <= c <= 'f' || 'A' <= c <= 'F' }

  predicate IsInteger(s: string) {
    || (s != "" && forall k | 0 <= k < |s| :: IsDigit(s[k]))
    || (|s| > 2 && s[0] == '0' && s[1] in {'x', 'X'} && forall k | 2 <= k < |s| :: HexDigit(s[k]))
    || (|s| > 2 && s[0] == '0' && s[1] in {'b', 'B'} && forall k | 2 <= k < |s| :: s[k] in {'0', '1'})
  }

  /** Digits on both sides of one dot. */
  predicate IsFloat(s: string) {
    exists d | 0 < d < |s| - 1 :: s[d] == '.' && forall k | 0 <= k < |s| && k != d :: IsDigit(s[k])
  }

  // ----- strings -----

  datatype Unit = Plain(c: char) | Escape(c: char) | HexEscape(h: char, l: char) | Code(text: string)

  /** Opening less closing parentheses among the first `k` characters. */
  function Level(text: string, k: nat): int
    requires k <= |text|
  {
    if k == 0 then 0
    else Level(text, k - 1) + if text[k - 1] == '(' then 1 else if text[k - 1] == ')' then -1 else 0
  }

  /** Every closing parenthesis has its opening one, and the other way round. */
  predicate Nests(text: string) { (forall k | 0 <= k <= |text| :: Level(text, k) >= 0) && Level(text, |text|) == 0 }

  predicate ValidUnit(u: Unit) {
    match u
    case Plain(c) => c != '"' && c != '\\'
    case Escape(c) => c in {'"', '\\', 'n', 't', 'r', '0'}
    case HexEscape(h, l) => HexDigit(h) && HexDigit(l)
    case Code(text) => Nests(text)
  }

  function Render(u: Unit): string {
    match u
    case Plain(c) => [c]
    case Escape(c) => ['\\', c]
    case HexEscape(h, l) => ['\\', 'x', h, l]
    case Code(text) => "\\(" + text + ")"
  }

  function Rendered(us: seq<Unit>): string { if us == [] then "" else Render(us[0]) + Rendered(us[1..]) }

  predicate AllValid(us: seq<Unit>) { forall i | 0 <= i < |us| :: ValidUnit(us[i]) }

  ghost predicate IsString(s: string) { exists us :: AllValid(us) && s == "\"" + (Rendered(us) + "\"") }

  /** How the tokens of a kind are spelled. */
  ghost predicate Spelled(kind: T.TokenKind, s: string) {
    if SymbolText(kind) != "" then s == SymbolText(kind)
    else if KeywordText(kind) != "" then s == KeywordText(kind)
    else if kind == T.BoolLit then s == "true" || s == "false"
    else if kind == T.Ident then IsName(s) && IsLower(s[0]) && !Reserved(s)
    else if kind == T.TypeIdent then IsName(s) && IsUpper(s[0])
    else if kind == T.IntLit then IsInteger(s)
    else if kind == T.FloatLit then IsFloat(s)
    else kind == T.StrLit && IsString(s)
  }

  // ----- names -----

  lemma NameIff(s: string)
    requires s != "" && IsLetter(s[0])
    ensures Span(s, 1, IdentC) == |s| <==> IsName(s)
  {
    SpanFacts(s, 1, IdentC);
    if IsName(s) { SpanIs(s, 1, |s|, IdentC); }
    hide Span;
  }

  lemma KeywordIff(s: string, kind: T.TokenKind)
    requires s != "" && IsLetter(s[0])
    ensures Classify(s, Default) == kind <==>
            if Reserved(s) then KeywordText(kind) == s || (kind == T.BoolLit && s in {"true", "false"})
            else kind == if IsUpper(s[0]) then T.TypeIdent else T.Ident
  {}

  lemma KeywordsAreNames(kind: T.TokenKind)
    ensures KeywordText(kind) != "" ==> IsName(KeywordText(kind)) && IsLower(KeywordText(kind)[0])
    ensures IsName("true") && IsName("false")
  {}

  lemma WordExact(kind: T.TokenKind, s: string)
    requires s != "" && IsLetter(s[0])
    ensures Shape(Word(kind, s)) <==> Spelled(kind, s)
  {
    hide Span, Classify, IsString, IsFloat, IsInteger, Reserved, KeywordText, SymbolText, IsName;
    NameIff(s);
    KeywordIff(s, kind);
    KeywordsAreNames(kind);
    NotSymbol(kind);
    KeywordKinds(kind);
    Heads(s);
  }

  lemma KeywordKinds(kind: T.TokenKind)
    ensures KeywordText(kind) != "" ==>
              Reserved(KeywordText(kind)) && KeywordText(kind) !in {"true", "false"}
              && kind != T.BoolLit && kind != T.Ident && kind != T.TypeIdent
    ensures Reserved("true") && Reserved("false")
    ensures forall s | Reserved(s) :: s != "" && IsLower(s[0]) && IsName(s)
    ensures SymbolText(T.Ident) == "" && SymbolText(T.TypeIdent) == ""
  {}

  /** No symbol starts with a letter, a digit or a quote, and the fixed spellings have kinds of their own. */
  lemma NotSymbol(kind: T.TokenKind)
    ensures var t := SymbolText(kind);
            t != "" ==> !IsLetter(t[0]) && !IsDigit(t[0]) && t[0] != '"' && KeywordText(kind) == "" && kind != T.BoolLit
    ensures SymbolText(T.BoolLit) == "" && KeywordText(T.BoolLit) == ""
  {}

  /** The first characters of numbers and strings. */
  lemma Heads(s: string)
    ensures IsInteger(s) || IsFloat(s) ==> s != "" && IsDigit(s[0])
    ensures IsString(s) ==> s != "" && s[0] == '"'
  {}

  // ----- symbols -----

  lemma SingleIff(c: char, kind: T.TokenKind)
    ensures Single(c, Default) == Some(kind) <==> SymbolText(kind) == [c]
  {}

  lemma PairIff(c: char, d: char, kind: T.TokenKind)
    ensures Pair(c, d) == Some(kind) <==> SymbolText(kind) == [c, d]
  {}

  lemma SymbolLength(kind: T.TokenKind)
    ensures var t := SymbolText(kind);
            |t| <= 2 && (t != "" ==> !IsWhitespace(t[0]) && t[0] != '_' && t[0] != '#')
  {}

  lemma SymbolExact(kind: T.TokenKind, s: string)
    requires s != "" && !IsLetter(s[0]) && !IsDigit(s[0]) && s[0] != '"'
    ensures Shape(Word(kind, s)) <==> Spelled(kind, s)
  {
    SingleIff(s[0], kind);
    if |s| > 1 { PairIff(s[0], s[1], kind); }
    SymbolLength(kind);
    KeywordsAreNames(kind);
    hide SymbolText, KeywordText, Single, Pair, IsString, IsFloat;
    Heads(s);
    assert |s| == 1 ==> s == [s[0]];
    assert |s| == 2 ==> s == [s[0], s[1]];
  }

  // ----- numbers -----

  lemma SpanAll(s: string, i: nat, cls: Class)
    requires i <= |s|
    ensures Span(s, i, cls) == |s| <==> forall k | i <= k < |s| :: In(s[k], cls)
  {
    SpanFacts(s, i, cls);
    if forall k | i <= k < |s| :: In(s[k], cls) { SpanIs(s, i, |s|, cls); }
    hide Span;
  }

  lemma IntegerIff(s: string)
    requires s != "" && IsDigit(s[0])
    ensures NumberShape(Word(T.IntLit, s)) <==> IsInteger(s)
  {
    SpanAll(s, 1, DigitC);
    if |s| >= 2 {
      SpanAll(s, 2, HexC);
      SpanAll(s, 2, BinC);
    }
    hide Span, FloatShape;
    if IsHexLit(s) || IsBinLit(s) {
      assert !IsDigit(s[1]);
    } else {
      assert IntShape(s) <==> forall k | 0 <= k < |s| :: IsDigit(s[k]);
    }
  }

  lemma FloatIff(s: string)
    requires s != "" && IsDigit(s[0])
    ensures NumberShape(Word(T.FloatLit, s)) <==> IsFloat(s)
  {
    var e := Span(s, 1, DigitC);
    SpanFacts(s, 1, DigitC);
    if e + 1 < |s| { SpanAll(s, e + 1, DigitC); }
    if IsFloat(s) {
      var d :| 0 < d < |s| - 1 && s[d] == '.' && forall k | 0 <= k < |s| && k != d :: IsDigit(s[k]);
      SpanIs(s, 1, d, DigitC);
      hide Span;
      assert |s| >= 2 ==> s[1] == '.' || IsDigit(s[1]);
    }
    hide Span;
    if NumberShape(Word(T.FloatLit, s)) {
      assert 0 < e < |s| - 1 && s[e] == '.' && forall k | 0 <= k < |s| && k != e :: IsDigit(s[k]);
    }
  }

  lemma NumberExact(kind: T.TokenKind, s: string)
    requires s != "" && IsDigit(s[0])
    ensures Shape(Word(kind, s)) <==> Spelled(kind, s)
  {
    NotSymbol(kind);
    KeywordsAreNames(kind);
    IntegerIff(s);
    FloatIff(s);
    hide NumberShape, IsInteger, IsFloat, IsString, Span, SymbolText, KeywordText;
    Heads(s);
    NumberKind(kind, s);
  }

  lemma NumberKind(kind: T.TokenKind, s: string)
    ensures NumberShape(Word(kind, s)) ==> kind == T.IntLit || kind == T.FloatLit
    ensures SymbolText(T.IntLit) == "" && KeywordText(T.IntLit) == ""
    ensures SymbolText(T.FloatLit) == "" && KeywordText(T.FloatLit) == ""
  {
    hide Span;
  }

  // ----- strings -----

  lemma {:induction false} LevelShift(text: string, k: nat)
    requires 0 < k <= |text|
    ensures Level(text, k) == Level(text[..1], 1) + Level(text[1..], k - 1)
  {
    if k == 1 {
      assert Level(text, 1) == Level(text[..1], 1) by { assert text[..1][0] == text[0]; }
    } else {
      LevelShift(text, k - 1);
    }
  }

  /** Inside `depth` parentheses the text closes all but the first. */
  predicate Falls(text: string, depth: nat) {
    (forall k | 0 <= k <= |text| :: depth + Level(text, k) >= 1) && depth + Level(text, |text|) == 1
  }

  lemma {:induction false} FallsStep(text: string, depth: nat)
    requires text != "" && depth > 0
    ensures Falls(text, depth) <==> Deeper(text[0], depth) > 0 && Falls(text[1..], Deeper(text[0], depth))
  {
    var rest, d := text[1..], Deeper(text[0], depth);
    assert depth + Level(text[..1], 1) == d by { assert text[..1][0] == text[0] && Level(text[..1], 0) == 0; }
    forall k | 0 < k <= |text| ensures depth + Level(text, k) == d + Level(rest, k - 1) { LevelShift(text, k); }
    hide Level, Deeper;
    if Falls(text, depth) {
      assert depth + Level(text, 1) >= 1 && Level(rest, 0) == 0 by { LevelNone(rest); }
      forall k | 0 <= k <= |rest| ensures d + Level(rest, k) >= 1 { assert depth + Level(text, k + 1) >= 1; }
    }
    if d > 0 && Falls(rest, d) {
      assert Level(text, 0) == 0 by { LevelNone(text); }
      forall k | 0 <= k <= |text| ensures depth + Level(text, k) >= 1 {
        if k > 0 { assert d + Level(rest, k - 1) >= 1; }
      }
    }
  }

  lemma LevelNone(text: string)
    ensures Level(text, 0) == 0
  {}

  /** An interpolation that ends inside the text ends behind the parenthesis that closes it. */
  lemma {:induction false} InterpFalls(t: string, j: nat, depth: nat)
    requires j <= |t| && depth > 0 && InterpEnd(t, j, depth) < |t|
    ensures var e := InterpEnd(t, j, depth); j < e && t[e - 1] == ')' && Falls(t[j..e - 1], depth)
    decreases |t| - j
  {
    var d := Deeper(t[j], depth);
    if d == 0 {
      assert InterpEnd(t, j + 1, 0) == j + 1;
      assert t[j..j] == "";
    } else {
      InterpFalls(t, j + 1, d);
      var e := InterpEnd(t, j, depth);
      var text := t[j..e - 1];
      assert text[0] == t[j] && text[1..] == t[j + 1..e - 1];
      FallsStep(text, depth);
    }
  }

  lemma {:induction false} FallsInterp(t: string, j: nat, depth: nat, e: nat)
    requires j <= e < |t| && depth > 0 && t[e] == ')' && Falls(t[j..e], depth)
    ensures InterpEnd(t, j, depth) == e + 1
    decreases e - j
  {
    var text := t[j..e];
    if j == e {
      assert Level(text, 0) == 0 && depth == 1;
      assert InterpEnd(t, j + 1, 0) == j + 1;
    } else {
      assert text[0] == t[j] && text[1..] == t[j + 1..e];
      FallsStep(text, depth);
      hide Falls;
      FallsInterp(t, j + 1, Deeper(t[j], depth), e);
    }
  }

  lemma NestsFalls(text: string)
    ensures Nests(text) <==> Falls(text, 1)
  {
    hide Level;
    if Falls(text, 1) { forall k | 0 <= k <= |text| ensures Level(text, k) >= 0 { assert 1 + Level(text, k) >= 1; } }
    if Nests(text) { forall k | 0 <= k <= |text| ensures 1 + Level(text, k) >= 1 { assert Level(text, k) >= 0; } }
  }

  /** A step over a string body is a unit. */
  lemma UnitAt(t: string, i: nat) returns (u: Unit)
    requires i <= |t| && MoveAt(t, i).Over? && MoveAt(t, i).next < |t|
    ensures ValidUnit(u) && t[i..MoveAt(t, i).next] == Render(u)
  {
    hide InterpEnd, Nests;
    if t[i] != '\\' {
      u := Plain(t[i]);
    } else if IsSimpleEscape(t[i + 1]) {
      u := Escape(t[i + 1]);
    } else if t[i + 1] == 'x' {
      u := HexEscape(t[i + 2], t[i + 3]);
    } else {
      var e := InterpEnd(t, i + 2, 1);
      InterpFalls(t, i + 2, 1);
      u := Code(t[i + 2..e - 1]);
      NestsFalls(u.text);
      hide Falls;
      assert t[i..e] == "\\(" + t[i + 2..e - 1] + ")";
    }
  }

  /** A unit is a step over a string body. */
  lemma UnitMoves(t: string, i: nat, u: Unit)
    requires ValidUnit(u) && i + |Render(u)| < |t| && t[i..i + |Render(u)|] == Render(u)
    ensures MoveAt(t, i) == Over(i + |Render(u)|)
  {
    var r := Render(u);
    assert forall k | 0 <= k < |r| :: t[i + k] == r[k];
    match u
    case Plain(c) => assert t[i] == r[0];
    case Escape(c) => assert t[i] == r[0] && t[i + 1] == r[1];
    case HexEscape(h, l) => assert t[i] == r[0] && t[i + 1] == r[1] && t[i + 2] == r[2] && t[i + 3] == r[3];
    case Code(text) =>
      assert t[i] == r[0] && t[i + 1] == r[1];
      var e := i + |r| - 1;
      assert t[e] == r[|r| - 1];
      assert t[i + 2..e] == r[2..|r| - 1] == text;
      NestsFalls(text);
      hide Nests, Falls;
      FallsInterp(t, i + 2, 1, e);
  }

  lemma {:induction false} BodyUnits(t: string, i: nat) returns (us: seq<Unit>)
    requires i <= |t| && Closes(t, i) == Some(|t|)
    ensures AllValid(us) && t[i..] == Rendered(us) + "\""
    decreases |t| - i
  {
    hide ValidUnit, Render;
    if MoveAt(t, i).Close? {
      us := [];
      assert t[i] == '"';
    } else {
      var n := MoveAt(t, i).next;
      var u := UnitAt(t, i);
      var rest := BodyUnits(t, n);
      us := [u] + rest;
      hide MoveAt, Closes;
      assert us[1..] == rest;
      assert t[i..] == t[i..n] + t[n..];
    }
  }

  lemma {:induction false} UnitsClose(t: string, i: nat, us: seq<Unit>)
    requires i <= |t| && AllValid(us) && t[i..] == Rendered(us) + "\""
    ensures Closes(t, i) == Some(|t|)
    decreases |us|
  {
    hide ValidUnit, Render;
    if us == [] {
      assert t[i..][0] == '"' && |t[i..]| == 1;
    } else {
      var u, rest := us[0], us[1..];
      var n := i + |Render(u)|;
      assert Rendered(us) == Render(u) + Rendered(rest);
      hide Rendered, MoveAt;
      assert t[i..n] == t[i..][..|Render(u)|] == Render(u);
      assert t[n..] == t[i..][|Render(u)|..] == Rendered(rest) + "\"";
      UnitMoves(t, i, u);
      UnitsClose(t, n, rest);
    }
  }

  lemma StringExact(kind: T.TokenKind, s: string)
    requires s != "" && s[0] == '"'
    ensures Shape(Word(kind, s)) <==> Spelled(kind, s)
  {
    NotSymbol(kind);
    KeywordsAreNames(kind);
    Heads(s);
    StringIff(s);
    NotSymbol(T.StrLit);
    hide Closes, IsString, IsInteger, IsFloat;
  }

  lemma StringIff(s: string)
    requires s != "" && s[0] == '"'
    ensures Closes(s, 1) == Some(|s|) <==> IsString(s)
  {
    hide Closes, AllValid, Rendered;
    if Closes(s, 1) == Some(|s|) {
      var us := BodyUnits(s, 1);
      assert s == "\"" + s[1..];
    }
    if IsString(s) {
      var us :| AllValid(us) && s == "\"" + (Rendered(us) + "\"");
      assert s[1..] == Rendered(us) + "\"";
      UnitsClose(s, 1, us);
    }
  }

  // ----- all tokens -----

  /** Main theorem: a text is read as one token of a kind if and only if it is spelled like one. */
  lemma TokenExact(kind: T.TokenKind, s: string)
    requires s != ""
    ensures First(s) == Take(kind, |s|) <==> Spelled(kind, s)
  {
    var w := Word(kind, s);
    assert s + "" == s;
    if First(s) == Take(kind, |s|) {
      FirstShape(s);
      assert s[..|s|] == s;
    }
    hide First, Spelled;
    if Shape(w) {
      Boundary(w, "");
      assert Stops(s, "");
    }
    hide Shape, Stops;
    if IsLetter(s[0]) { WordExact(kind, s); }
    else if IsDigit(s[0]) { NumberExact(kind, s); }
    else if s[0] == '"' { StringExact(kind, s); }
    else { SymbolExact(kind, s); }
  }

  // ----- what is skipped -----

  /** The end of the line: the first line break, or the end of the text. */
  predicate LineEnds(s: string, n: nat) {
    n <= |s| && (forall k | 0 <= k < n :: s[k] != '\n') && (n < |s| ==> s[n] == '\n')
  }

  predicate Opens(s: string, c: char, d: char) { |s| > 1 && s[0] == c && s[1] == d }

  /** White space is skipped character by character, `#` and `//` up to the end of the line, and `(*` up to
      the end of the comment; nothing else is skipped. */
  lemma SkipExact(s: string, n: nat)
    requires s != ""
    ensures First(s) == Skip(n) <==>
            if s[0] in {' ', '\t', '\r', '\n'} then n == 1
            else if s[0] == '#' || Opens(s, '/', '/') then LineEnds(s, n)
            else Opens(s, '(', '*') && n == CommentEnd(s, 2, 1)
  {
    LineSpan(s, n);
    SymbolSkip(s, n);
    OtherSkip(s);
    hide Span, ScanIdent, ScanNumber, ScanSymbol, StrBody, CommentEnd, LineEnds;
  }

  /** Letters, digits and quotes start tokens or errors. */
  lemma OtherSkip(s: string)
    requires s != ""
    ensures IsLetter(s[0]) || IsDigit(s[0]) || s[0] == '_' || s[0] == '"' ==> !First(s).Skip?
  {
    hide Span, ScanSymbol;
  }

  lemma SymbolSkip(s: string, n: nat)
    requires s != ""
    ensures HeadOf(ScanSymbol(s, 0, Default)) == Skip(n) <==>
            if Opens(s, '(', '*') then n == CommentEnd(s, 2, 1)
            else Opens(s, '/', '/') && n == Span(s, 1, LineC)
  {
    hide Span, CommentEnd, Single, Pair;
  }

  lemma LineSpan(s: string, n: nat)
    requires s != ""
    ensures s[0] != '\n' ==> (Span(s, 1, LineC) == n <==> LineEnds(s, n))
  {
    SpanFacts(s, 1, LineC);
    if LineEnds(s, n) && s[0] != '\n' {
      assert n > 0;
      SpanIs(s, 1, n, LineC);
    }
    hide Span;
  }

  lemma {:induction false} CommentAdds(s: string, j: nat, k: nat, d: nat)
    requires j <= |s| && CommentEnd(s, j, k) < |s|
    ensures CommentEnd(s, j, k + d) == CommentEnd(s, CommentEnd(s, j, k), d)
    decreases |s| - j
  {
    if j < |s| && k > 0 {
      if j + 1 < |s| && s[j] == '(' && s[j + 1] == '*' { CommentAdds(s, j + 2, k + 1, d); }
      else if j + 1 < |s| && s[j] == '*' && s[j + 1] == ')' { CommentAdds(s, j + 2, k - 1, d); }
      else { CommentAdds(s, j + 1, k, d); }
    }
  }

  /** Comments nest: inside a comment, a whole comment is passed over. */
  lemma NestedComment(s: string, j: nat, d: nat)
    requires j + 1 < |s| && s[j] == '(' && s[j + 1] == '*' && CommentEnd(s, j + 2, 1) < |s| && d > 0
    ensures CommentEnd(s, j, d) == CommentEnd(s, CommentEnd(s, j + 2, 1), d)
  {
    CommentAdds(s, j + 2, 1, d);
    assert CommentEnd(s, j, d) == CommentEnd(s, j + 2, 1 + d);
  }

  /** A comment without openings ends behind the first `*)`. */
  lemma {:induction false} FlatComment(s: string, j: nat, e: nat)
    requires j <= e && e + 1 < |s| && s[e] == '*' && s[e + 1] == ')'
    requires forall k | j <= k < e :: !(s[k] == '*' && s[k + 1] == ')') && !(s[k] == '(' && s[k + 1] == '*')
    ensures CommentEnd(s, j, 1) == e + 2
    decreases e - j
  {
    if j < e {
      FlatComment(s, j + 1, e);
    } else {
      assert CommentEnd(s, j + 2, 0) == j + 2;
    }
  }

  // ----- the other profile -----

  /** The legacy profile has square brackets instead of `$` and `@`, and four upper-case keywords. */
  lemma LegacyDiffers(c: char, w: string)
    requires w != ""
    ensures Single(c, Legacy) ==
            if c == '[' then Some(T.LBracket) else if c == ']' then Some(T.RBracket)
            else if c == '$' || c == '@' then None else Single(c, Default)
    ensures Classify(w, Legacy) ==
            if w == "F" then T.KwF else if w == "T" then T.KwT else if w == "I" then T.KwI else if w == "M" then T.KwM
            else Classify(w, Default)
  {}
}
