/**
 Grouping parentheses: the table that tells them from the parentheses of calls and declarations, in terms of
 the lexer's tokens.  A parenthesis groups unless the token before it can take one.
 */
module FmtGroups {
  import opened Wrappers
  import opened Chars
  import T = Tokens
  import opened Lexemes
  import opened TokenBoundary
  import opened LexGrammar
  import opened FmtScan
  import P = FmtPairs

  /** Names, keywords and literals, `)`, `@` and `$` can stand before the parenthesis of a call, a declaration
      or a construct. */
  predicate TakesParenthesis(kind: T.TokenKind) {
    || KeywordText(kind) != ""
    || kind in {T.BoolLit, T.Ident, T.TypeIdent, T.IntLit, T.FloatLit, T.StrLit, T.RParen, T.At, T.Dollar}
  }

  predicate GroupsBehind(prev: Option<T.TokenKind>) { prev.Some? ==> !TakesParenthesis(prev.value) }

  /** The starts of the grouping parentheses from `i` on, behind a token of kind `prev`. */
  function GroupStarts(s: string, i: nat, prev: Option<T.TokenKind>): set<nat>
    requires i <= |s| && Clean(s, i)
    decreases |s| - i
  {
    if i == |s| then {}
    else
      match Ahead(s, i)
      case Skip(n) => GroupStarts(s, n, prev)
      case Take(k, n) => (if k == T.LParen && GroupsBehind(prev) then {i} else {}) + GroupStarts(s, n, Some(k))
  }

  // ----- the character before, and the token before -----

  lemma SymbolEnds(kind: T.TokenKind)
    ensures var t := SymbolText(kind);
            t != "" ==> (P.Groups(t[|t| - 1]) <==> !TakesParenthesis(kind))
  {}

  lemma OtherKinds(kind: T.TokenKind)
    ensures KeywordText(kind) != "" ==> TakesParenthesis(kind)
    ensures kind in {T.BoolLit, T.Ident, T.TypeIdent, T.IntLit, T.FloatLit, T.StrLit} ==> TakesParenthesis(kind)
  {}

  lemma NameLast(s: string)
    requires IsName(s)
    ensures !P.Groups(s[|s| - 1])
  {}

  lemma NumberLast(s: string)
    requires IsInteger(s) || IsFloat(s)
    ensures !P.Groups(s[|s| - 1])
  {
    var c := s[|s| - 1];
    if IsFloat(s) {
      var d :| 0 < d < |s| - 1 && s[d] == '.' && forall k | 0 <= k < |s| && k != d :: IsDigit(s[k]);
      assert IsDigit(c);
    }
  }

  lemma StringLast(s: string)
    requires IsString(s)
    ensures !P.Groups(s[|s| - 1])
  {
    var us :| AllValid(us) && s == "\"" + (Rendered(us) + "\"");
    assert s[|s| - 1] == '"';
  }

  /** The last character of a token tells whether the token can take a parenthesis. */
  lemma TokenEnds(w: Word)
    requires Shape(w)
    ensures w.text != "" && (P.Groups(w.text[|w.text| - 1]) <==> !TakesParenthesis(w.kind))
  {
    var kind, s := w.kind, w.text;
    assert s != "";
    ShapeSpelled(w);
    SymbolEnds(kind);
    OtherKinds(kind);
    KeywordsAreNames(kind);
    hide Shape, SymbolText, KeywordText, TakesParenthesis, P.Groups, IsName, IsInteger, IsFloat, IsString, Reserved;
    if SymbolText(kind) != "" {
    } else if KeywordText(kind) != "" || kind == T.BoolLit || kind == T.Ident || kind == T.TypeIdent {
      NameLast(s);
    } else if kind == T.IntLit || kind == T.FloatLit {
      NumberLast(s);
    } else {
      StringLast(s);
    }
  }

  lemma ShapeSpelled(w: Word)
    requires Shape(w)
    ensures w.text != "" && Spelled(w.kind, w.text)
  {
    var s := w.text;
    hide Spelled;
    if IsLetter(s[0]) { WordExact(w.kind, s); }
    else if IsDigit(s[0]) { NumberExact(w.kind, s); }
    else if s[0] == '"' { StringExact(w.kind, s); }
    else { SymbolExact(w.kind, s); }
  }

  // ----- the table -----

  /** Before position `i` the table is final, from there on it is empty. */
  predicate Ready(s: string, p: P.Tables, i: nat) {
    P.Sized(s, p) && forall j | i <= j <= |s| :: !p.group[j]
  }

  lemma HandleGroup(s: string, p: P.Tables, i: nat, prev: char, n: nat)
    requires Ready(s, p, i) && i < n <= |s|
    ensures var q := P.Handle(s, p, Bracket(i, prev));
            && Ready(s, q, n)
            && forall j | 0 <= j <= |s| :: q.group[j] == (p.group[j] || (j == i && s[i] == '(' && P.Groups(prev)))
  {
    hide P.Groups, P.Below, P.Hit, P.Wanted;
  }

  /** Main theorem, for the text from any position on. */
  lemma {:induction false} GroupsFrom(s: string, i: nat, prev: char, kind: Option<T.TokenKind>, p: P.Tables)
    requires i <= |s| && Clean(s, i) && Ready(s, p, i) && (P.Groups(prev) <==> GroupsBehind(kind))
    ensures P.InText(s, LexEvents(s, i, prev))
    ensures forall j | 0 <= j <= |s| ::
              P.HandleAll(s, p, LexEvents(s, i, prev)).group[j] <==> p.group[j] || j in GroupStarts(s, i, kind)
    decreases |s| - i
  {
    hide Ahead, P.Groups, GroupsBehind, P.Handle;
    if i < |s| {
      match Ahead(s, i)
      case Skip(n) => SkipGroups(s, i, prev, kind, p);
      case Take(k, n) => TakeGroups(s, i, prev, kind, p);
    }
  }

  lemma {:induction false} SkipGroups(s: string, i: nat, prev: char, kind: Option<T.TokenKind>, p: P.Tables)
    requires i < |s| && Clean(s, i) && Ready(s, p, i) && (P.Groups(prev) <==> GroupsBehind(kind))
    requires Ahead(s, i).Skip?
    ensures P.InText(s, LexEvents(s, i, prev))
    ensures forall j | 0 <= j <= |s| ::
              P.HandleAll(s, p, LexEvents(s, i, prev)).group[j] <==> p.group[j] || j in GroupStarts(s, i, kind)
    decreases |s| - i, 0
  {
    hide Ahead, P.Groups, GroupsBehind;
    var n := Ahead(s, i).n;
    LexEventsSkip(s, i, prev);
    GroupsFrom(s, n, prev, kind, p);
    var rest := LexEvents(s, n, prev);
    hide LexEvents, Clean;
    if s[i] == '(' {
      assert LexEvents(s, i, prev) == [Event.Comment(i, n - i)] + rest;
      P.HandleFirst(s, p, Event.Comment(i, n - i), rest);
    } else {
      assert LexEvents(s, i, prev) == rest;
    }
  }

  lemma {:induction false} TakeGroups(s: string, i: nat, prev: char, kind: Option<T.TokenKind>, p: P.Tables)
    requires i < |s| && Clean(s, i) && Ready(s, p, i) && (P.Groups(prev) <==> GroupsBehind(kind))
    requires Ahead(s, i).Take?
    ensures P.InText(s, LexEvents(s, i, prev))
    ensures forall j | 0 <= j <= |s| ::
              P.HandleAll(s, p, LexEvents(s, i, prev)).group[j] <==> p.group[j] || j in GroupStarts(s, i, kind)
    decreases |s| - i, 0
  {
    hide Ahead, P.Groups, P.Handle, TakesParenthesis, LexEvents, Clean, Shape, P.HandleAll;
    var h := Ahead(s, i);
    TakenEnds(s, i);
    LexEventsTake(s, i, prev);
    var rest := LexEvents(s, h.n, s[h.n - 1]);
    HandleGroup(s, p, i, prev, h.n);
    StartsStep(s, i, kind);
    hide GroupStarts;
    if IsBracketKind(h.kind) {
      var q := P.Handle(s, p, Bracket(i, prev));
      GroupsFrom(s, h.n, s[h.n - 1], Some(h.kind), q);
      assert LexEvents(s, i, prev) == [Bracket(i, prev)] + rest;
      P.HandleFirst(s, p, Bracket(i, prev), rest);
    } else {
      GroupsFrom(s, h.n, s[h.n - 1], Some(h.kind), p);
      assert LexEvents(s, i, prev) == rest;
    }
  }

  lemma TakenEnds(s: string, i: nat)
    requires i < |s| && Ahead(s, i).Take?
    ensures var h := Ahead(s, i);
            && (P.Groups(s[h.n - 1]) <==> GroupsBehind(Some(h.kind)))
            && (IsBracketKind(h.kind) ==> (s[i] == '(' <==> h.kind == T.LParen))
  {
    hide Ahead, Shape, P.Groups, TakesParenthesis;
    var h := Ahead(s, i);
    var w := Word(h.kind, s[i..h.n]);
    TokenHere(s, i);
    TokenEnds(w);
    assert w.text[|w.text| - 1] == s[h.n - 1] && w.text[0] == s[i];
    BracketStart(w);
  }

  lemma StartsStep(s: string, i: nat, kind: Option<T.TokenKind>)
    requires i < |s| && Clean(s, i) && Ahead(s, i).Take?
    ensures var h := Ahead(s, i);
            && Clean(s, h.n)
            && GroupStarts(s, i, kind)
               == (if h.kind == T.LParen && GroupsBehind(kind) then {i} else {}) + GroupStarts(s, h.n, Some(h.kind))
  {
    hide Ahead, GroupsBehind;
  }

  lemma BracketStart(w: Word)
    requires Shape(w)
    ensures w.text != "" && (IsBracketKind(w.kind) ==> (w.text[0] == '(' <==> w.kind == T.LParen))
  {
    ShapeSpelled(w);
    hide Shape;
  }

  /** Main theorem: on every accepted text without recovery comments, the table marks exactly the parentheses
      that group. */
  lemma GroupsExact(s: string)
    requires Clean(s, 0)
    ensures P.Sized(s, P.TablesOf(s))
    ensures forall j | 0 <= j <= |s| :: P.TablesOf(s).group[j] <==> j in GroupStarts(s, 0, None)
  {
    hide GroupStarts, LexEvents, Events, P.HandleAll, Clean, P.Handle;
    EmptyReady(s);
    FirstGroups();
    ScannersAgree(s, 0, '\0');
    GroupsFrom(s, 0, '\0', None, P.Empty(s));
    TablesAre(s);
    hide P.TablesOf, P.Groups, P.Empty;
  }

  lemma FirstGroups()
    ensures P.Groups('\0') && GroupsBehind(None)
  {}

  lemma EmptyReady(s: string)
    ensures Ready(s, P.Empty(s), 0) && forall j | 0 <= j <= |s| :: !P.Empty(s).group[j]
  {}

  lemma TablesAre(s: string)
    ensures P.Sized(s, P.Empty(s)) && P.InText(s, Events(s, 0, '\0'))
    ensures P.TablesOf(s) == P.HandleAll(s, P.Empty(s), Events(s, 0, '\0'))
  {
    hide Events, P.HandleAll;
    P.EventsInText(s, 0, '\0');
  }
}
