/**
 When a token stays the token it is: for every token of the default profile and every text put behind
 it, exactly when the lexer still reads that token first.
 */
module TokenBoundary {
  import opened Wrappers
  import opened Chars
  import T = Tokens
  import opened LexerSpec
  import opened Lexemes

  predicate IsHexLit(t: string) { |t| >= 2 && t[0] == '0' && (t[1] == 'x' || t[1] == 'X') }

  predicate IsBinLit(t: string) { |t| >= 2 && t[0] == '0' && (t[1] == 'b' || t[1] == 'B') }

  /** Digits only: an integer that a dot and a digit would turn into a float. */
  predicate IsDecimal(t: string) { forall i | 0 <= i < |t| :: IsDigit(t[i]) }

  /** A one-character token that `d` behind it changes: into a comment, a two-character symbol, or a
      reserved upper-case keyword. */
  predicate PairFuses(t: string, d: char) {
    && |t| == 1
    && ( || (t[0] == '(' && d == '*')
         || (t[0] == '/' && d == '/')
         || Pair(t[0], d).Some?
         || (IsUpperKeyword(t[0]) && d == '='))
  }

  /** `r` does not run on from the token text `t`. */
  predicate Stops(t: string, r: string)
    requires t != ""
  {
    || r == ""
    || ( && !PairFuses(t, r[0])
         && (IsLetter(t[0]) ==> !In(r[0], IdentLegacyC))
         && (IsDigit(t[0]) ==> !IsLetter(r[0]) && !In(r[0], DigitsOf(t)) && !(IsDecimal(t) && RunsOn(r))))
  }

  /** The digits a number literal is written with. */
  function DigitsOf(t: string): Class {
    if IsHexLit(t) then HexC else if IsBinLit(t) then BinC else DigitC
  }

  predicate RunsOn(r: string) { |r| >= 2 && r[0] == '.' && IsDigit(r[1]) }

  // ----- spans -----

  predicate AllIn(s: string, i: nat, e: nat, cls: Class)
    requires i <= e <= |s|
  {
    forall k | i <= k < e :: In(s[k], cls)
  }

  lemma {:induction false} SpanFacts(s: string, i: nat, cls: Class)
    requires i <= |s|
    ensures var e := Span(s, i, cls); AllIn(s, i, e, cls) && (e < |s| ==> !In(s[e], cls))
    decreases |s| - i
  {
    hide In;
    if i < |s| && In(s[i], cls) { SpanFacts(s, i + 1, cls); }
  }

  lemma {:induction false} SpanIs(s: string, i: nat, e: nat, cls: Class)
    requires i <= e <= |s| && AllIn(s, i, e, cls) && (e < |s| ==> !In(s[e], cls))
    ensures Span(s, i, cls) == e
    decreases e - i
  {
    hide In;
    if i < e { SpanIs(s, i + 1, e, cls); }
  }

  /** A run that fills a text is the start of the run in a longer text. */
  lemma SpanOver(t: string, r: string, i: nat, cls: Class)
    requires i <= |t| && Span(t, i, cls) == |t|
    ensures var e := Span(t + r, i, cls); |t| <= e && (e == |t| <==> r == "" || !In(r[0], cls))
  {
    SpanFacts(t, i, cls);
    var u := t + r;
    SpanFacts(u, i, cls);
    var e := Span(u, i, cls);
    hide Span, In;
    if e >= |t| && r != "" {
      assert u[|t|] == r[0];
    }
  }

  /** A run that ends inside a text ends there in every longer text, and in the text cut behind it. */
  lemma SpanCut(s: string, i: nat, cls: Class)
    requires i <= |s|
    ensures var e := Span(s, i, cls); Span(s[..e], i, cls) == e
  {
    var e := Span(s, i, cls);
    SpanFacts(s, i, cls);
    hide In;
    SpanIs(s[..e], i, e, cls);
  }

  // ----- identifiers -----

  /** What `lex_ident` does once the end `e` of the run is known. */
  lemma IdentHead(s: string, e: nat)
    requires s != "" && e == Span(s, 1, IdentC)
    ensures HeadOf(ScanIdent(s, 0, Default)) ==
            if e < |s| && (s[e] == '_' || (e == 1 && IsUpperKeyword(s[0]) && s[e] == '=')) then Reject
            else Take(Classify(s[..e], Default), e)
  {
    hide Span, Classify, IsUpperKeyword;
    assert s[0..e] == s[..e];
  }

  lemma IdentBoundary(t: string, r: string)
    requires t != "" && IsLetter(t[0]) && Span(t, 1, IdentC) == |t|
    ensures HeadOf(ScanIdent(t + r, 0, Default)) == Take(Classify(t, Default), |t|) <==>
            (r == "" || (!In(r[0], IdentLegacyC) && !(|t| == 1 && IsUpperKeyword(t[0]) && r[0] == '=')))
  {
    SpanOver(t, r, 1, IdentC);
    var u := t + r;
    var e := Span(u, 1, IdentC);
    IdentHead(u, e);
    hide Span, Classify, IsUpperKeyword, ScanIdent;
    if e == |t| {
      assert u[..e] == t;
      if r != "" { assert u[|t|] == r[0] && u[0] == t[0]; }
    }
  }

  lemma IdentCut(s: string)
    requires s != "" && IsLetter(s[0]) && HeadOf(ScanIdent(s, 0, Default)).Take?
    ensures var n := HeadOf(ScanIdent(s, 0, Default)).n;
            && HeadOf(ScanIdent(s, 0, Default)).kind == Classify(s[..n], Default)
            && 0 < n <= |s| && Span(s[..n], 1, IdentC) == n
  {
    SpanCut(s, 1, IdentC);
    IdentHead(s, Span(s, 1, IdentC));
    hide Span, Classify, ScanIdent;
  }

  // ----- numbers -----

  lemma RadixBoundary(t: string, r: string, cls: Class)
    requires |t| > 2 && Span(t, 2, cls) == |t| && In(t[2], cls)
    ensures HeadOf(ScanRadix(t + r, 2, cls)) == Take(T.IntLit, |t|) <==>
            (r == "" || (!In(r[0], cls) && !IsLetter(r[0])))
  {
    SpanOver(t, r, 2, cls);
    var u := t + r;
    hide Span, In;
    assert u[2] == t[2];
    assert r != "" ==> u[|t|] == r[0];
  }

  lemma RadixCut(s: string, cls: Class)
    requires |s| >= 2 && HeadOf(ScanRadix(s, 2, cls)).Take?
    ensures var h := HeadOf(ScanRadix(s, 2, cls));
            h.kind == T.IntLit && 2 < h.n <= |s| && Span(s[..h.n], 2, cls) == h.n && In(s[2], cls)
  {
    SpanCut(s, 2, cls);
    hide In;
    assert s[2..] != "" ==> Span(s, 2, cls) >= 2;
  }

  /** The two shapes of a decimal literal. */
  predicate IntShape(t: string) { t != "" && Span(t, 1, DigitC) == |t| }

  predicate FloatShape(t: string) {
    && t != ""
    && var e := Span(t, 1, DigitC);
       e + 1 < |t| && t[e] == '.' && IsDigit(t[e + 1]) && Span(t, e + 1, DigitC) == |t|
  }

  lemma IntBoundary(t: string, r: string)
    requires IntShape(t) && IsDigit(t[0])
    ensures HeadOf(ScanDecimal(t + r, 0)) == Take(T.IntLit, |t|) <==>
            (r == "" || (!IsDigit(r[0]) && !IsLetter(r[0]) && !RunsOn(r)))
  {
    SpanOver(t, r, 1, DigitC);
    var u := t + r;
    hide Span;
    assert r != "" ==> u[|t|] == r[0];
    assert |r| > 1 ==> u[|t| + 1] == r[1];
  }

  lemma FloatBoundary(t: string, r: string)
    requires FloatShape(t)
    ensures HeadOf(ScanDecimal(t + r, 0)) == Take(T.FloatLit, |t|) <==>
            (r == "" || (!IsDigit(r[0]) && !IsLetter(r[0])))
  {
    var u := t + r;
    var e := Span(t, 1, DigitC);
    SpanFacts(t, 1, DigitC);
    assert AllIn(u, 1, e, DigitC) by { forall k | 1 <= k < e ensures In(u[k], DigitC) { assert u[k] == t[k]; } }
    assert u[e] == t[e] == '.';
    SpanIs(u, 1, e, DigitC);
    SpanOver(t, r, e + 1, DigitC);
    hide Span;
    assert u[e + 1] == t[e + 1];
    assert r != "" ==> u[|t|] == r[0];
  }

  lemma DecimalCut(s: string)
    requires s != "" && HeadOf(ScanDecimal(s, 0)).Take?
    ensures var h := HeadOf(ScanDecimal(s, 0));
            0 < h.n <= |s| && if h.kind == T.IntLit then IntShape(s[..h.n])
              else h.kind == T.FloatLit && FloatShape(s[..h.n])
  {
    SpanCut(s, 1, DigitC);
    SpanFacts(s, 1, DigitC);
    var e := Span(s, 1, DigitC);
    if e + 1 < |s| && s[e] == '.' && IsDigit(s[e + 1]) {
      SpanCut(s, e + 1, DigitC);
      SpanFacts(s, e + 1, DigitC);
      var n := Span(s, e + 1, DigitC);
      var t := s[..n];
      SpanIs(t, 1, e, DigitC);
    }
  }

  // ----- strings -----

  /** What follows the closing parenthesis does not matter to an interpolation that closes. */
  lemma {:induction false} InterpOver(t: string, r: string, j: nat, depth: nat)
    requires j <= |t| && depth > 0 && InterpEnd(t, j, depth) < |t|
    ensures InterpEnd(t + r, j, depth) == InterpEnd(t, j, depth)
    decreases |t| - j
  {
    if j < |t| {
      var c := t[j];
      var d := if c == '(' then depth + 1 else if c == ')' then depth - 1 else depth;
      assert (t + r)[j] == c;
      if d > 0 { InterpOver(t, r, j + 1, d); }
    }
  }

  lemma {:induction false} ClosesOver(t: string, r: string, i: nat)
    requires i <= |t| && Closes(t, i).Some?
    ensures Closes(t + r, i) == Closes(t, i)
    decreases |t| - i
  {
    var m := MoveAt(t, i);
    MoveOver(t, r, i);
    hide MoveAt;
    if m.Over? { ClosesOver(t, r, m.next); }
  }

  lemma MoveOver(t: string, r: string, i: nat)
    requires i <= |t| && Closes(t, i).Some?
    ensures MoveAt(t + r, i) == MoveAt(t, i)
  {
    hide InterpEnd;
    var u := t + r;
    assert forall k | 0 <= k < |t| :: u[k] == t[k];
    if t[i] == '\\' && t[i + 1] == '(' {
      var e := InterpEnd(t, i + 2, 1);
      assert Closes(t, e).Some?;
      InterpOver(t, r, i + 2, 1);
    }
  }

  /** A string body closes at the same place in the text cut behind it. */
  lemma {:induction false} ClosesCut(s: string, n: nat, i: nat)
    requires i <= n <= |s| && Closes(s, i) == Some(n)
    ensures Closes(s[..n], i) == Some(n)
    decreases |s| - i
  {
    var m := MoveAt(s, i);
    MoveCut(s, n, i);
    hide MoveAt;
    if m.Over? { ClosesCut(s, n, m.next); }
  }

  lemma MoveCut(s: string, n: nat, i: nat)
    requires i <= n <= |s| && Closes(s, i) == Some(n)
    ensures MoveAt(s[..n], i) == MoveAt(s, i)
    ensures MoveAt(s, i).Over? ==> MoveAt(s, i).next < n
  {
    hide InterpEnd;
    var m := MoveAt(s, i);
    if m.Over? {
      assert Closes(s, m.next) == Some(n);
      if s[i] == '\\' && s[i + 1] == '(' { InterpCut(s, n, i + 2, 1); }
    }
  }

  lemma {:induction false} InterpCut(s: string, n: nat, j: nat, depth: nat)
    requires j <= n <= |s| && InterpEnd(s, j, depth) < n
    ensures InterpEnd(s[..n], j, depth) == InterpEnd(s, j, depth)
    decreases |s| - j
  {
    if j < |s| && depth > 0 {
      var c := s[j];
      InterpCut(s, n, j + 1, if c == '(' then depth + 1 else if c == ')' then depth - 1 else depth);
    }
  }

  // ----- every token -----

  /** The shape of a token by its first character. */
  predicate Shape(w: Word) {
    && w.text != ""
    && var c := w.text[0];
       if IsLetter(c) then Span(w.text, 1, IdentC) == |w.text| && w.kind == Classify(w.text, Default)
       else if IsDigit(c) then NumberShape(w)
       else if c == '"' then w.kind == T.StrLit && Closes(w.text, 1) == Some(|w.text|)
       else SymbolShape(w)
  }

  predicate NumberShape(w: Word) {
    && w.text != ""
    && var t := w.text;
       if IsHexLit(t) || IsBinLit(t) then
         w.kind == T.IntLit && |t| > 2 && In(t[2], DigitsOf(t)) && Span(t, 2, DigitsOf(t)) == |t|
       else if w.kind == T.IntLit then IntShape(t)
       else w.kind == T.FloatLit && FloatShape(t)
  }

  predicate SymbolShape(w: Word)
    requires w.text != ""
  {
    && !IsWhitespace(w.text[0]) && w.text[0] != '_' && w.text[0] != '#'
    && if |w.text| == 1 then Single(w.text[0], Default) == Some(w.kind)
       else |w.text| == 2 && Pair(w.text[0], w.text[1]) == Some(w.kind)
  }

  lemma SymbolBoundary(w: Word, r: string)
    requires w.text != "" && SymbolShape(w) && !IsLetter(w.text[0]) && !IsDigit(w.text[0])
    ensures HeadOf(ScanSymbol(w.text + r, 0, Default)) == Take(w.kind, |w.text|)
            <==> (r == "" || !PairFuses(w.text, r[0]))
  {
    var u := w.text + r;
    assert u[0] == w.text[0];
    if |w.text| == 2 {
      assert u[1] == w.text[1];
    } else if r != "" {
      assert u[1] == r[0];
      hide Single, Span, CommentEnd;
    }
  }

  lemma NumberBoundary(w: Word, r: string)
    requires NumberShape(w) && IsDigit(w.text[0])
    ensures HeadOf(ScanNumber(w.text + r, 0)) == Take(w.kind, |w.text|) <==>
            (r == "" || (!IsLetter(r[0]) && !In(r[0], DigitsOf(w.text)) && !(IsDecimal(w.text) && RunsOn(r))))
  {
    var t := w.text;
    var u := t + r;
    assert u[0] == t[0];
    if IsHexLit(t) || IsBinLit(t) {
      assert u[1] == t[1];
      assert !IsDigit(t[1]);
      RadixBoundary(t, r, DigitsOf(t));
      hide ScanRadix, ScanDecimal;
    } else if |t| == 1 && r != "" && IsLetter(r[0]) {
      assert u[1] == r[0];
      IntBoundary(t, r);
      hide ScanRadix, ScanDecimal;
    } else {
      SpanFacts(t, 1, DigitC);
      assert |u| > 1 ==> u[1] == if |t| > 1 then t[1] else r[0];
      if w.kind == T.IntLit {
        assert IsDecimal(t) by { forall i | 0 <= i < |t| ensures IsDigit(t[i]) { assert i > 0 ==> In(t[i], DigitC); } }
        IntBoundary(t, r);
      } else {
        assert !IsDecimal(t) by { assert !IsDigit(t[Span(t, 1, DigitC)]); }
        FloatBoundary(t, r);
      }
      hide ScanRadix, ScanDecimal, IsDecimal, Span;
    }
  }

  /** Main theorem: a token followed by any text is read as that token exactly when the text does not run
      on from it. */
  lemma Boundary(w: Word, r: string)
    requires Shape(w)
    ensures First(w.text + r) == Take(w.kind, |w.text|) <==> Stops(w.text, r)
  {
    var t := w.text;
    assert (t + r)[0] == t[0];
    hide Span, ScanIdent, ScanNumber, ScanSymbol, StrBody, Classify, Closes, IsDecimal, NumberShape, SymbolShape;
    if IsLetter(t[0]) {
      IdentBoundary(t, r);
    } else if IsDigit(t[0]) {
      NumberBoundary(w, r);
    } else if t[0] == '"' {
      ClosesOver(t, r, 1);
      StrCloses(t + r, 1, 0);
    } else {
      SymbolFirst(w);
      SymbolBoundary(w, r);
    }
  }

  lemma SymbolFirst(w: Word)
    requires w.text != "" && SymbolShape(w)
    ensures !IsWhitespace(w.text[0]) && w.text[0] != '_' && w.text[0] != '#'
  {
  }

  /** What the lexer takes from a text is a token by itself. */
  lemma FirstShape(s: string)
    requires s != "" && First(s).Take?
    ensures Shape(Word(First(s).kind, s[..First(s).n]))
  {
    var n := First(s).n;
    var w := Word(First(s).kind, s[..n]);
    assert w.text[0] == s[0];
    hide Span, ScanIdent, ScanNumber, ScanSymbol, StrBody, Classify, Closes, IsDecimal, NumberShape, SymbolShape;
    if IsLetter(s[0]) {
      IdentCut(s);
    } else if IsDigit(s[0]) {
      NumberCut(s);
    } else if s[0] == '"' {
      StrCloses(s, 1, 0);
      ClosesCut(s, n, 1);
    } else {
      SymbolCut(s);
    }
  }

  lemma NumberCut(s: string)
    requires s != "" && IsDigit(s[0]) && HeadOf(ScanNumber(s, 0)).Take?
    ensures var h := HeadOf(ScanNumber(s, 0)); 0 < h.n <= |s| && NumberShape(Word(h.kind, s[..h.n]))
  {
    if IsHexLit(s) { RadixCut(s, HexC); }
    else if IsBinLit(s) { RadixCut(s, BinC); }
    else { DecimalCut(s); }
    hide ScanRadix, ScanDecimal, Span;
  }

  lemma SymbolCut(s: string)
    requires s != "" && !IsWhitespace(s[0]) && s[0] != '_' && s[0] != '#' && HeadOf(ScanSymbol(s, 0, Default)).Take?
    ensures var h := HeadOf(ScanSymbol(s, 0, Default)); 0 < h.n <= |s| && SymbolShape(Word(h.kind, s[..h.n]))
  {
    hide Single, Pair, Span, CommentEnd;
  }
}
