/**
 The formatter's own scanner: `fs_build` of `src/fmt.c`. What it sees in a text, how it pairs brackets,
 and its agreement with the lexer.
 */
module FmtScan {
  import opened Wrappers
  import opened Chars
  import T = Tokens
  import opened LexerSpec
  import opened Lexemes
  import opened TokenBoundary
  import LexerGeometry

  // ----- what the scanner sees -----

  /** A comment, or a bracket with the last significant character before it. */
  datatype Event = Comment(start: nat, len: nat) | Bracket(at: nat, prev: char)

  predicate IsOpen(c: char) { c == '(' || c == '{' || c == '[' }

  predicate IsClose(c: char) { c == ')' || c == '}' || c == ']' }

  /** Where the loop over a string literal stops: at its closing quote or at the end of the text. */
  function StrStop(s: string, j: nat, depth: nat): (e: nat)
    requires j <= |s|
    ensures j <= e <= |s|
    decreases |s| - j
  {
    if j == |s| then j
    else if depth > 0 then StrStop(s, j + 1, Deeper(s[j], depth))
    else if s[j] == '\\' && j + 1 < |s| then StrStop(s, j + 2, if s[j + 1] == '(' then 1 else 0)
    else if s[j] == '"' then j
    else StrStop(s, j + 1, 0)
  }

  function Behind(s: string, j: nat): nat { if j < |s| then j + 1 else |s| }

  predicate OpensComment(s: string, i: nat) { i + 1 < |s| && s[i] == '(' && s[i + 1] == '*' }

  function Events(s: string, i: nat, prev: char): seq<Event>
    requires i <= |s|
    decreases |s| - i
  {
    if i == |s| then []
    else if OpensComment(s, i) then
      var e := CommentEnd(s, i + 2, 1);
      [Comment(i, e - i)] + Events(s, e, prev)
    else if s[i] == '"' then Events(s, Behind(s, StrStop(s, i + 1, 0)), '"')
    else if IsWhitespace(s[i]) then Events(s, i + 1, prev)
    else if IsOpen(s[i]) || IsClose(s[i]) then [Bracket(i, prev)] + Events(s, i + 1, s[i])
    else Events(s, i + 1, s[i])
  }

  /** One turn of the scanner: where it goes on, what it saw, and the last significant character. */
  datatype Turn = Turn(next: nat, seen: seq<Event>, prev: char)

  function TurnAt(s: string, i: nat, prev: char): (t: Turn)
    requires i < |s|
    ensures i < t.next <= |s|
  {
    if OpensComment(s, i) then
      var e := CommentEnd(s, i + 2, 1);
      Turn(e, [Comment(i, e - i)], prev)
    else if s[i] == '"' then Turn(Behind(s, StrStop(s, i + 1, 0)), [], '"')
    else if IsWhitespace(s[i]) then Turn(i + 1, [], prev)
    else if IsOpen(s[i]) || IsClose(s[i]) then Turn(i + 1, [Bracket(i, prev)], s[i])
    else Turn(i + 1, [], s[i])
  }

  lemma EventsTurn(s: string, i: nat, prev: char)
    requires i < |s|
    ensures var t := TurnAt(s, i, prev); Events(s, i, prev) == t.seen + Events(s, t.next, t.prev)
  {
    hide CommentEnd, StrStop;
    var t := TurnAt(s, i, prev);
    assert [] + Events(s, t.next, t.prev) == Events(s, t.next, t.prev);
  }

  // ----- what the lexer sees -----

  function Ahead(s: string, i: nat): (h: Head)
    requires i < |s|
    ensures !h.Reject? ==> i < h.n <= |s|
  {
    HeadOf(Scan(s, i, Default, 0))
  }

  /** The lexer accepts the text from `i` on without passing over a `#` or `//` comment. */
  predicate Clean(s: string, i: nat)
    requires i <= |s|
    decreases |s| - i
  {
    i == |s| ||
    match Ahead(s, i)
    case Skip(n) => s[i] != '#' && s[i] != '/' && Clean(s, n)
    case Take(_, n) => Clean(s, n)
    case Reject => false
  }

  predicate IsBracketKind(k: T.TokenKind) { k == T.LParen || k == T.RParen || k == T.LBrace || k == T.RBrace }

  /** The block comments the lexer passes over and the bracket tokens it emits, each with the last
      character of the token before it. */
  function LexEvents(s: string, i: nat, prev: char): seq<Event>
    requires i <= |s| && Clean(s, i)
    decreases |s| - i
  {
    if i == |s| then []
    else
      match Ahead(s, i)
      case Skip(n) => (if s[i] == '(' then [Comment(i, n - i)] else []) + LexEvents(s, n, prev)
      case Take(k, n) => (if IsBracketKind(k) then [Bracket(i, prev)] else []) + LexEvents(s, n, s[n - 1])
  }

  // ----- agreement -----

  /** Characters that both scanners treat one at a time. */
  predicate Dull(c: char) { !IsWhitespace(c) && !IsOpen(c) && !IsClose(c) && c != '"' }

  lemma {:induction false} EventsDull(s: string, i: nat, n: nat, prev: char)
    requires i < n <= |s| && forall k | i <= k < n :: Dull(s[k])
    ensures Events(s, i, prev) == Events(s, n, s[n - 1])
    decreases n - i
  {
    if i + 1 < n { EventsDull(s, i + 1, n, s[i]); }
  }

  lemma {:induction false} StopInterp(s: string, j: nat, depth: nat)
    requires j <= |s|
    ensures StrStop(s, j, depth) == StrStop(s, InterpEnd(s, j, depth), 0)
    decreases |s| - j
  {
    if j < |s| && depth > 0 { StopInterp(s, j + 1, Deeper(s[j], depth)); }
  }

  lemma StopMove(s: string, j: nat)
    requires j <= |s|
    ensures MoveAt(s, j).Close? ==> StrStop(s, j, 0) == j < |s|
    ensures MoveAt(s, j).Over? ==> StrStop(s, j, 0) == StrStop(s, MoveAt(s, j).next, 0)
  {
    if j + 1 < |s| && s[j] == '\\' && s[j + 1] == '(' {
      StopInterp(s, j + 2, 1);
      hide InterpEnd;
    } else if j + 3 < |s| && s[j] == '\\' && s[j + 1] == 'x' && IsHex(s[j + 2]) && IsHex(s[j + 3]) {
      hide InterpEnd;
      assert StrStop(s, j, 0) == StrStop(s, j + 2, 0);
      assert StrStop(s, j + 2, 0) == StrStop(s, j + 3, 0);
    }
  }

  /** Both scanners find the same end of an accepted string. */
  lemma {:induction false} StopCloses(s: string, j: nat)
    requires j <= |s| && Closes(s, j).Some?
    ensures StrStop(s, j, 0) < |s| && StrStop(s, j, 0) + 1 == Closes(s, j).value && s[StrStop(s, j, 0)] == '"'
    decreases |s| - j
  {
    StopMove(s, j);
    var m := MoveAt(s, j);
    if m.Over? {
      hide MoveAt, StrStop;
      StopCloses(s, m.next);
    } else {
      assert s[j] == '"';
    }
  }

  predicate AllDull(t: string) { forall k | 0 <= k < |t| :: Dull(t[k]) }

  lemma ClassifyNoBracket(t: string)
    requires t != ""
    ensures !IsBracketKind(Classify(t, Default))
  {
  }

  lemma NumberDull(w: Word)
    requires NumberShape(w) && IsDigit(w.text[0])
    ensures AllDull(w.text) && !IsBracketKind(w.kind)
  {
    var t := w.text;
    if IsHexLit(t) || IsBinLit(t) {
      SpanFacts(t, 2, DigitsOf(t));
    } else {
      SpanFacts(t, 1, DigitC);
      if w.kind != T.IntLit { SpanFacts(t, Span(t, 1, DigitC) + 1, DigitC); }
    }
    hide Span;
  }

  /** A symbol is a bracket, or none of its characters is one. */
  lemma SymbolDull(w: Word)
    requires w.text != "" && SymbolShape(w) && w.text[0] != '"'
    ensures if IsBracketKind(w.kind) then |w.text| == 1 && (IsOpen(w.text[0]) || IsClose(w.text[0]))
            else AllDull(w.text)
  {
  }

  /** The token at `i` by itself. */
  lemma TokenHere(s: string, i: nat)
    requires i < |s| && Ahead(s, i).Take?
    ensures Shape(Word(Ahead(s, i).kind, s[i..Ahead(s, i).n]))
  {
    ScanShift(s, i);
    FirstShape(s[i..]);
    hide Scan, Shape;
    assert s[i..Ahead(s, i).n] == s[i..][..First(s[i..]).n];
  }

  lemma StringHere(s: string, i: nat)
    requires i < |s| && s[i] == '"' && Ahead(s, i).Take?
    ensures Closes(s, i + 1) == Some(Ahead(s, i).n) && Ahead(s, i).kind == T.StrLit
  {
    StrCloses(s, i + 1, 0);
    hide StrBody, Closes;
  }

  lemma SkipHere(s: string, i: nat)
    requires i < |s| && Ahead(s, i).Skip? && s[i] != '#' && s[i] != '/'
    ensures if s[i] == '(' then OpensComment(s, i) && Ahead(s, i).n == CommentEnd(s, i + 2, 1)
            else IsWhitespace(s[i]) && Ahead(s, i).n == i + 1
  {
    hide StrBody, ScanIdent, ScanNumber, CommentEnd, Span;
  }

  lemma TakeHere(s: string, i: nat)
    requires i < |s| && Ahead(s, i).Take?
    ensures !OpensComment(s, i) && !IsWhitespace(s[i])
  {
    hide StrBody, ScanIdent, ScanNumber, CommentEnd, Span;
  }

  lemma DullText(s: string, i: nat, n: nat, prev: char)
    requires i < n <= |s| && AllDull(s[i..n])
    ensures Events(s, i, prev) == Events(s, n, s[n - 1])
  {
    forall k | i <= k < n ensures Dull(s[k]) { assert s[k] == s[i..n][k - i]; }
    hide Events;
    EventsDull(s, i, n, prev);
  }

  /** A token is a string, a bracket, or dull. */
  lemma TokenDull(w: Word)
    requires Shape(w) && w.text[0] != '"'
    ensures if IsBracketKind(w.kind) then |w.text| == 1 && (IsOpen(w.text[0]) || IsClose(w.text[0]))
            else AllDull(w.text)
  {
    hide Classify, Closes, NumberShape, SymbolShape, Span, IsBracketKind;
    if IsLetter(w.text[0]) {
      ClassifyNoBracket(w.text);
      SpanFacts(w.text, 1, IdentC);
    } else if IsDigit(w.text[0]) {
      NumberDull(w);
    } else {
      SymbolDull(w);
    }
  }

  lemma BracketEvents(s: string, i: nat, prev: char)
    requires i < |s| && !OpensComment(s, i) && !IsWhitespace(s[i]) && (IsOpen(s[i]) || IsClose(s[i]))
    ensures Events(s, i, prev) == [Bracket(i, prev)] + Events(s, i + 1, s[i])
  {
  }

  lemma StringEvents(s: string, i: nat, prev: char)
    requires i < |s| && s[i] == '"' && Closes(s, i + 1).Some?
    ensures var n := Closes(s, i + 1).value; Events(s, i, prev) == Events(s, n, s[n - 1])
  {
    StopCloses(s, i + 1);
    hide StrStop, Closes;
  }

  /** One token: the same event from both scanners. */
  lemma TakeAgrees(s: string, i: nat, prev: char)
    requires i < |s| && Ahead(s, i).Take?
    ensures var h := Ahead(s, i);
            Events(s, i, prev)
              == (if IsBracketKind(h.kind) then [Bracket(i, prev)] else []) + Events(s, h.n, s[h.n - 1])
  {
    hide Ahead, Shape, Events, OpensComment, IsOpen, IsClose, AllDull;
    var h := Ahead(s, i);
    var w := Word(h.kind, s[i..h.n]);
    TokenHere(s, i);
    TakeHere(s, i);
    assert w.text[0] == s[i];
    if s[i] == '"' {
      StringHere(s, i);
      StringEvents(s, i, prev);
    } else {
      TokenDull(w);
      if IsBracketKind(h.kind) { BracketEvents(s, i, prev); } else { DullText(s, i, h.n, prev); }
    }
  }

  lemma SkipAgrees(s: string, i: nat, prev: char)
    requires i < |s| && Ahead(s, i).Skip? && s[i] != '#' && s[i] != '/'
    ensures var n := Ahead(s, i).n;
            Events(s, i, prev) == (if s[i] == '(' then [Comment(i, n - i)] else []) + Events(s, n, prev)
  {
    SkipHere(s, i);
    hide Ahead, CommentEnd, StrStop;
  }

  lemma LexEventsSkip(s: string, i: nat, prev: char)
    requires i < |s| && Clean(s, i) && Ahead(s, i).Skip?
    ensures var n := Ahead(s, i).n;
            && s[i] != '#' && s[i] != '/' && Clean(s, n)
            && LexEvents(s, i, prev) == (if s[i] == '(' then [Comment(i, n - i)] else []) + LexEvents(s, n, prev)
  {
    hide Ahead;
  }

  lemma LexEventsTake(s: string, i: nat, prev: char)
    requires i < |s| && Clean(s, i) && Ahead(s, i).Take?
    ensures var h := Ahead(s, i);
            && Clean(s, h.n)
            && LexEvents(s, i, prev)
               == (if IsBracketKind(h.kind) then [Bracket(i, prev)] else []) + LexEvents(s, h.n, s[h.n - 1])
  {
    hide Ahead;
  }

  lemma EventsEnd(s: string, prev: char)
    ensures Events(s, |s|, prev) == [] && LexEvents(s, |s|, prev) == []
  {
  }

  /** Main theorem: on every accepted text without recovery comments the formatter's scanner sees exactly
      the block comments and bracket tokens of the lexer, with the same characters before them. */
  lemma {:induction false} ScannersAgree(s: string, i: nat, prev: char)
    requires i <= |s| && Clean(s, i)
    ensures Events(s, i, prev) == LexEvents(s, i, prev)
    decreases |s| - i
  {
    hide Ahead, Events, LexEvents;
    if i == |s| {
      EventsEnd(s, prev);
    } else {
      var h := Ahead(s, i);
      assert !h.Reject?;
      hide Clean;
      if h.Skip? {
        LexEventsSkip(s, i, prev);
        SkipAgrees(s, i, prev);
        ScannersAgree(s, h.n, prev);
      } else {
        LexEventsTake(s, i, prev);
        TakeAgrees(s, i, prev);
        ScannersAgree(s, h.n, s[h.n - 1]);
      }
    }
  }

  // ----- the events are those of the token buffer -----

  /** The places of the bracket tokens in a token buffer. */
  function BracketStarts(toks: seq<Token>): seq<nat> {
    if toks == [] then []
    else
      BracketStarts(toks[..|toks| - 1]) +
      if IsBracketKind(toks[|toks| - 1].kind) then [toks[|toks| - 1].start] else []
  }

  /** The brackets among some events. */
  function Brackets(es: seq<Event>): seq<nat> {
    if es == [] then [] else (if es[0].Bracket? then [es[0].at] else []) + Brackets(es[1..])
  }

  lemma BracketsCons(e: seq<Event>, es: seq<Event>)
    requires |e| <= 1
    ensures Brackets(e + es) == (if |e| == 1 && e[0].Bracket? then [e[0].at] else []) + Brackets(es)
  {
    if |e| == 1 { assert (e + es)[1..] == es; } else { assert e + es == es; }
  }

  lemma StartsPush(toks: seq<Token>, t: Token)
    ensures BracketStarts(toks + [t]) == BracketStarts(toks) + if IsBracketKind(t.kind) then [t.start] else []
  {
    assert (toks + [t])[..|toks|] == toks;
  }

  /** A scan with `pos` in front of it and `toks` behind it ends well and finds these brackets. */
  predicate Finds(s: string, toks: seq<Token>, pos: nat, prev: char, r: StepOut)
    requires pos <= |s| && Clean(s, pos)
  {
    && r.Stop? && r.st.errs == 0 && r.st.pos == |s|
    && BracketStarts(r.st.toks) == BracketStarts(toks) + Brackets(LexEvents(s, pos, prev))
  }

  lemma FindsSkip(s: string, toks: seq<Token>, i: nat, prev: char, r: StepOut)
    requires i < |s| && Clean(s, i) && Ahead(s, i).Skip? && Finds(s, toks, Ahead(s, i).n, prev, r)
    ensures Finds(s, toks, i, prev, r)
  {
    hide Ahead, BracketStarts, Brackets, LexEvents;
    LexEventsSkip(s, i, prev);
    var n := Ahead(s, i).n;
    BracketsCons(if s[i] == '(' then [Comment(i, n - i)] else [], LexEvents(s, n, prev));
  }

  lemma FindsTake(s: string, toks: seq<Token>, i: nat, prev: char, t: Token, r: StepOut)
    requires i < |s| && Clean(s, i) && Ahead(s, i).Take? && t.kind == Ahead(s, i).kind && t.start == i
    requires Finds(s, toks + [t], Ahead(s, i).n, s[Ahead(s, i).n - 1], r)
    ensures Finds(s, toks, i, prev, r)
  {
    hide Ahead, BracketStarts, Brackets, LexEvents;
    LexEventsTake(s, i, prev);
    var n := Ahead(s, i).n;
    var rest := LexEvents(s, n, s[n - 1]);
    var e := if IsBracketKind(t.kind) then [Bracket(i, prev)] else [];
    BracketsCons(e, rest);
    StartsPush(toks, t);
    var b := if IsBracketKind(t.kind) then [i] else [];
    assert BracketStarts(toks) + b + Brackets(rest) == BracketStarts(toks) + (b + Brackets(rest));
  }

  lemma {:induction false} RunBrackets(s: string, cap: nat, st: LexState, prev: char)
    requires st.pos <= |s| && st.errs == 0 && |st.toks| <= st.pos && cap > |s| && Clean(s, st.pos)
    ensures Finds(s, st.toks, st.pos, prev, Run(s, Default, cap, st))
    decreases |s| - st.pos
  {
    hide Step, First, TokenAt, BracketStarts, Brackets, Ahead, LexEvents, LineAt, ColAt;
    var i := st.pos;
    if i < |s| {
      hide Finds;
      StepFirst(s, cap, st);
      AheadFirst(s, i);
      match Ahead(s, i)
      case Skip(n) =>
        RunBrackets(s, cap, st.(pos := n), prev);
        FindsSkip(s, st.toks, i, prev, Run(s, Default, cap, st));
      case Take(k, n) =>
        var t := TokenAt(s, k, i, n - i);
        assert t.kind == k && t.start == i by { TokenParts(s, k, i, n - i); }
        RunBrackets(s, cap, LexState(n, 0, st.toks + [t]), s[n - 1]);
        FindsTake(s, st.toks, i, prev, t, Run(s, Default, cap, st));
    } else {
      NoBrackets();
      assert LexEvents(s, i, prev) == [] by { NoLexEvents(s, prev); }
    }
  }

  lemma TokenParts(s: string, k: T.TokenKind, i: nat, n: nat)
    requires i <= |s|
    ensures TokenAt(s, k, i, n).kind == k && TokenAt(s, k, i, n).start == i
  {
  }

  lemma NoLexEvents(s: string, prev: char)
    ensures LexEvents(s, |s|, prev) == []
  {
  }

  lemma NoBrackets()
    ensures Brackets([]) == []
  {
  }

  lemma AheadFirst(s: string, i: nat)
    requires i < |s|
    ensures Ahead(s, i) == ShiftHead(First(s[i..]), i)
  {
    ScanShift(s, i);
    hide Scan;
  }

  /** The agreement in terms of the token buffer: a text without recovery comments is accepted, and the
      brackets the formatter sees are the bracket tokens in it. */
  lemma AgreesWithTokens(s: string)
    requires Clean(s, 0)
    ensures var (n, toks) := Lex(s, Default, BufferFor(s));
            n >= 0 && BracketStarts(toks) == Brackets(Events(s, 0, '\0'))
    ensures Events(s, 0, '\0') == LexEvents(s, 0, '\0')
  {
    var cap, st0 := BufferFor(s), LexState(0, 0, []);
    ScannersAgree(s, 0, '\0');
    RunBrackets(s, cap, st0, '\0');
    LexerGeometry.RunGeometry(s, Default, cap, st0);
    hide Events, LexEvents, Clean, Run, LineAt, ColAt, Brackets;
    var st := Run(s, Default, cap, st0).st;
    StartsPush(st.toks, TokenAt(s, T.Eof, st.pos, 0));
    assert BracketStarts([]) == [];
  }

  predicate NoRecovery(s: string) {
    forall i | 0 <= i < |s| :: s[i] != '#' && (i + 1 < |s| ==> !(s[i] == '/' && s[i + 1] == '/'))
  }

  lemma WordsRest(s: string)
    requires s != "" && Words(s).Some?
    ensures !First(s).Reject? && Words(s[First(s).n..]).Some?
  {
    hide First;
  }

  /** Accepted text without `#` and `//` is such a text. */
  lemma {:induction false} AcceptedIsClean(s: string, i: nat)
    requires i <= |s| && Words(s[i..]).Some? && NoRecovery(s)
    ensures Clean(s, i)
    decreases |s| - i
  {
    hide First, Ahead, NoRecovery, Words;
    if i < |s| {
      AheadFirst(s, i);
      WordsRest(s[i..]);
      SlashSkip(s, i);
      var n := First(s[i..]).n;
      assert s[i..][n..] == s[i + n..];
      AcceptedIsClean(s, i + n);
    }
  }

  lemma SlashSkip(s: string, i: nat)
    requires i < |s| && NoRecovery(s)
    ensures s[i] != '#' && (s[i] == '/' ==> !Ahead(s, i).Skip?)
  {
    hide StrBody, ScanIdent, ScanNumber, CommentEnd, Span;
  }
}
