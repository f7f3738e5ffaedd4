/**
 The token stream of a text without positions: what the lexer of the default profile reads from it when
 it accepts it.
 */
module Lexemes {
  import opened Wrappers
  import opened Chars
  import T = Tokens
  import opened LexerSpec
  import LexerGeometry

  datatype Word = Word(kind: T.TokenKind, text: string)

  /** What comes first in a text: something to pass over, a token, or an error. */
  datatype Head = Skip(n: nat) | Take(kind: T.TokenKind, n: nat) | Reject

  function HeadOf(item: Item): Head {
    match item
    case Blank(n) => Skip(n)
    case Lexeme(kind, n, _) => Take(kind, n)
    case Str(Closed(n)) => Take(T.StrLit, n)
    case _ => Reject
  }

  function First(s: string): (h: Head)
    requires s != ""
    ensures !h.Reject? ==> 0 < h.n <= |s|
  {
    HeadOf(Scan(s, 0, Default, 0))
  }

  function Cons(w: Word, rest: Option<seq<Word>>): Option<seq<Word>> {
    if rest.Some? then Some([w] + rest.value) else None
  }

  /** The tokens of a text, or nothing when it has an error. */
  function Words(s: string): Option<seq<Word>>
    decreases |s|
  {
    if s == "" then Some([])
    else
      match First(s)
      case Skip(n) => Words(s[n..])
      case Take(kind, n) => Cons(Word(kind, s[..n]), Words(s[n..]))
      case Reject => None
  }

  // ----- scanning does not look back -----

  lemma {:induction false} SpanShift(s: string, k: nat, i: nat, cls: Class)
    requires k + i <= |s|
    ensures Span(s, k + i, cls) == k + Span(s[k..], i, cls)
    decreases |s| - i
  {
    if k + i < |s| && In(s[k + i], cls) { SpanShift(s, k, i + 1, cls); }
  }

  lemma {:induction false} InterpShift(s: string, k: nat, i: nat, depth: nat)
    requires k + i <= |s|
    ensures InterpEnd(s, k + i, depth) == k + InterpEnd(s[k..], i, depth)
    decreases |s| - i
  {
    if k + i < |s| && depth > 0 {
      var c := s[k + i];
      InterpShift(s, k, i + 1, if c == '(' then depth + 1 else if c == ')' then depth - 1 else depth);
    }
  }

  lemma {:induction false} CommentShift(s: string, k: nat, i: nat, depth: nat)
    requires k + i <= |s|
    ensures CommentEnd(s, k + i, depth) == k + CommentEnd(s[k..], i, depth)
    decreases |s| - i
  {
    if k + i < |s| && depth > 0 {
      if k + i + 1 < |s| && s[k + i] == '(' && s[k + i + 1] == '*' { CommentShift(s, k, i + 2, depth + 1); }
      else if k + i + 1 < |s| && s[k + i] == '*' && s[k + i + 1] == ')' { CommentShift(s, k, i + 2, depth - 1); }
      else { CommentShift(s, k, i + 1, depth); }
    }
  }

  // ----- string bodies -----

  /** What stands at position `i` of a string body. */
  datatype Move = Close | Over(next: nat) | Wrong

  function MoveAt(s: string, i: nat): (m: Move)
    requires i <= |s|
    ensures m.Over? ==> i < m.next <= |s|
  {
    if i == |s| then Wrong
    else if s[i] == '"' then Close
    else if s[i] != '\\' then Over(i + 1)
    else if i + 1 == |s| then Wrong
    else if IsSimpleEscape(s[i + 1]) then Over(i + 2)
    else if s[i + 1] == 'x' then
      if i + 3 < |s| && IsHex(s[i + 2]) && IsHex(s[i + 3]) then Over(i + 4) else Wrong
    else if s[i + 1] == '(' then Over(InterpEnd(s, i + 2, 1))
    else Wrong
  }

  /** Behind the quote that closes a string body without bad escapes. */
  function Closes(s: string, i: nat): (r: Option<nat>)
    requires i <= |s|
    ensures r.Some? ==> i < r.value <= |s|
    decreases |s| - i
  {
    match MoveAt(s, i)
    case Close => Some(i + 1)
    case Over(n) => Closes(s, n)
    case Wrong => None
  }

  lemma {:induction false} StrCloses(s: string, i: nat, errs: nat)
    requires i <= |s|
    ensures var r := StrBody(s, i, errs, false);
            if r.Closed? then Closes(s, i) == Some(r.next) else Closes(s, i).None?
    decreases |s| - i
  {
    hide InterpEnd;
    var m := MoveAt(s, i);
    if m.Over? {
      assert StrBody(s, i, errs, false) == StrBody(s, m.next, errs, false);
      hide MoveAt;
      StrCloses(s, m.next, errs);
    }
  }

  lemma MoveShift(s: string, k: nat, i: nat)
    requires k + i <= |s|
    ensures var m, m' := MoveAt(s, k + i), MoveAt(s[k..], i);
            if m'.Over? then m == Over(k + m'.next) else m == m'
  {
    hide InterpEnd;
    if k + i + 1 < |s| { InterpShift(s, k, i + 2, 1); }
  }

  lemma {:induction false} ClosesShift(s: string, k: nat, i: nat)
    requires k + i <= |s|
    ensures var r, r' := Closes(s, k + i), Closes(s[k..], i);
            if r'.Some? then r == Some(k + r'.value) else r.None?
    decreases |s| - i
  {
    MoveShift(s, k, i);
    hide MoveAt;
    var m := MoveAt(s[k..], i);
    if m.Over? { ClosesShift(s, k, m.next); }
  }

  // ----- the other tokens -----

  function ShiftItem(item: Item, k: nat): Item {
    match item
    case Blank(n) => Blank(k + n)
    case Lexeme(kind, n, symbol) => Lexeme(kind, k + n, symbol)
    case Bad(n) => Bad(k + n)
    case _ => item
  }

  lemma IdentShift(s: string, k: nat, profile: Profile)
    requires k < |s|
    ensures ScanIdent(s, k, profile) == ShiftItem(ScanIdent(s[k..], 0, profile), k)
  {
    hide Span, Classify;
    SpanShift(s, k, 1, IdentC);
    var e := Span(s[k..], 1, IdentC);
    SpanShift(s, k, e, IdentLegacyC);
    assert s[k..k + e] == s[k..][0..e];
  }

  lemma NumberEndShift(s: string, k: nat, e: nat, kind: T.TokenKind)
    requires k + e <= |s|
    ensures NumberEnd(s, k + e, kind) == ShiftItem(NumberEnd(s[k..], e, kind), k)
  {
    hide Span;
    if k + e < |s| { SpanShift(s, k, e + 1, IdentC); }
  }

  lemma RadixShift(s: string, k: nat, e: nat, cls: Class)
    requires k + e <= |s|
    ensures ScanRadix(s, k + e, cls) == ShiftItem(ScanRadix(s[k..], e, cls), k)
  {
    hide Span, NumberEnd;
    SpanShift(s, k, e, cls);
    NumberEndShift(s, k, Span(s[k..], e, cls), T.IntLit);
  }

  lemma DecimalShift(s: string, k: nat)
    requires k < |s|
    ensures ScanDecimal(s, k) == ShiftItem(ScanDecimal(s[k..], 0), k)
  {
    hide Span, NumberEnd;
    SpanShift(s, k, 1, DigitC);
    var e := Span(s[k..], 1, DigitC);
    NumberEndShift(s, k, e, T.IntLit);
    if k + e + 1 < |s| {
      SpanShift(s, k, e + 1, DigitC);
      NumberEndShift(s, k, Span(s[k..], e + 1, DigitC), T.FloatLit);
    }
  }

  lemma SymbolShift(s: string, k: nat, profile: Profile)
    requires k < |s|
    ensures ScanSymbol(s, k, profile) == ShiftItem(ScanSymbol(s[k..], 0, profile), k)
  {
    hide Span, CommentEnd, Pair, Single;
    SpanShift(s, k, 1, LineC);
    if k + 1 < |s| { CommentShift(s, k, 2, 1); }
  }

  lemma NumberShift(s: string, k: nat)
    requires k < |s| && IsDigit(s[k])
    ensures ScanNumber(s, k) == ShiftItem(ScanNumber(s[k..], 0), k)
  {
    hide ScanDecimal, ScanRadix;
    DecimalShift(s, k);
    if k + 1 < |s| {
      RadixShift(s, k, 2, HexC);
      RadixShift(s, k, 2, BinC);
    }
  }

  function ShiftHead(h: Head, k: nat): Head {
    match h
    case Skip(n) => Skip(k + n)
    case Take(kind, n) => Take(kind, k + n)
    case Reject => Reject
  }

  lemma StringShift(s: string, k: nat)
    requires k < |s|
    ensures HeadOf(Str(StrBody(s, k + 1, 0, false))) == ShiftHead(HeadOf(Str(StrBody(s[k..], 1, 0, false))), k)
  {
    StrCloses(s, k + 1, 0);
    StrCloses(s[k..], 1, 0);
    ClosesShift(s, k, 1);
    hide StrBody, Closes;
  }

  lemma ScanShift(s: string, k: nat)
    requires k < |s|
    ensures HeadOf(Scan(s, k, Default, 0)) == ShiftHead(First(s[k..]), k)
  {
    hide Span, ScanIdent, ScanNumber, ScanSymbol, StrBody, In;
    if IsLetter(s[k]) { IdentShift(s, k, Default); }
    else if IsDigit(s[k]) { NumberShift(s, k); }
    else if s[k] == '"' { StringShift(s, k); }
    else if s[k] == '#' { SpanShift(s, k, 1, LineC); }
    else { SymbolShift(s, k, Default); }
  }

  // ----- the lexer reads these tokens -----

  /** The tokens of a finished scan with their texts. */
  function Texts(s: string, toks: seq<Token>): seq<Word> {
    seq(|toks|, i requires 0 <= i < |toks| =>
      Word(toks[i].kind,
           if toks[i].start + toks[i].len <= |s| then s[toks[i].start..toks[i].start + toks[i].len] else ""))
  }

  /** Errors are never taken back. */
  lemma {:induction false} ErrorsStay(s: string, profile: Profile, cap: nat, st: LexState)
    requires st.pos <= |s|
    ensures Run(s, profile, cap, st).st.errs >= st.errs
    decreases |s| - st.pos
  {
    if st.pos < |s| {
      StepErrors(s, profile, cap, st);
      hide Step;
      match Step(s, profile, cap, st)
      case Go(st') => ErrorsStay(s, profile, cap, st');
      case _ =>
    }
  }

  lemma StepErrors(s: string, profile: Profile, cap: nat, st: LexState)
    requires st.pos < |s|
    ensures Step(s, profile, cap, st).st.errs >= st.errs
  {
    hide StrBody, ScanIdent, ScanNumber, ScanSymbol, LineAt, ColAt;
  }

  /** One step of an error-free scan, in terms of the text that is left. */
  lemma StepFirst(s: string, cap: nat, st: LexState)
    requires st.pos < |s| && st.errs == 0 && |st.toks| < cap
    ensures var h, r := First(s[st.pos..]), Step(s, Default, cap, st);
            && (h.Skip? ==> r == Go(st.(pos := st.pos + h.n)))
            && (h.Take? ==> r == Go(LexState(st.pos + h.n, 0, st.toks + [TokenAt(s, h.kind, st.pos, h.n)])))
            && (h.Reject? ==> r.st.errs > 0)
  {
    ScanShift(s, st.pos);
    RejectCounts(s, st);
    hide LineAt, ColAt, Scan, First;
  }

  lemma RejectCounts(s: string, st: LexState)
    requires st.pos < |s| && st.errs == 0
    ensures var item := Scan(s, st.pos, Default, 0); item.Str? && !item.end.Closed? ==> item.end.errs > 0
  {
    hide StrBody, ScanIdent, ScanNumber, ScanSymbol;
  }

  /** The verdict of a scan that has `pos` in front of it and `toks` behind it. */
  predicate Reads(s: string, toks: seq<Token>, pos: nat, r: StepOut)
    requires pos <= |s|
  {
    var ws := Words(s[pos..]);
    && (r.st.errs == 0 <==> ws.Some?)
    && (ws.Some? ==> Texts(s, r.st.toks) == Texts(s, toks) + ws.value && r.st.pos == |s|)
  }

  lemma ReadsSkip(s: string, toks: seq<Token>, pos: nat, n: nat, r: StepOut)
    requires pos < |s| && pos + n <= |s| && First(s[pos..]) == Skip(n) && Reads(s, toks, pos + n, r)
    ensures Reads(s, toks, pos, r)
  {
    hide First, Texts;
    assert s[pos..][n..] == s[pos + n..];
  }

  lemma ReadsTake(s: string, toks: seq<Token>, pos: nat, kind: T.TokenKind, n: nat, r: StepOut)
    requires pos < |s| && pos + n <= |s| && First(s[pos..]) == Take(kind, n)
    requires Reads(s, toks + [TokenAt(s, kind, pos, n)], pos + n, r)
    ensures Reads(s, toks, pos, r)
  {
    hide First, LineAt, ColAt;
    var rest := s[pos..];
    var w := Word(kind, rest[..n]);
    var ws := Words(s[pos + n..]);
    assert rest[n..] == s[pos + n..];
    assert Words(rest) == Cons(w, ws);
    hide Words;
    if ws.Some? {
      assert rest[..n] == s[pos..pos + n];
      assert Texts(s, toks + [TokenAt(s, kind, pos, n)]) == Texts(s, toks) + [w];
      assert Texts(s, toks) + [w] + ws.value == Texts(s, toks) + ([w] + ws.value);
    }
  }

  lemma {:induction false} RunWords(s: string, cap: nat, st: LexState)
    requires st.pos <= |s| && st.errs == 0 && |st.toks| <= st.pos && cap > |s|
    ensures Reads(s, st.toks, st.pos, Run(s, Default, cap, st))
    decreases |s| - st.pos
  {
    hide Step, First, LineAt, ColAt, Texts, TokenAt;
    if st.pos < |s| {
      StepFirst(s, cap, st);
      match First(s[st.pos..])
      case Skip(n) =>
        hide Reads, Words;
        RunWords(s, cap, st.(pos := st.pos + n));
        ReadsSkip(s, st.toks, st.pos, n, Run(s, Default, cap, st));
      case Take(kind, n) =>
        hide Reads, Words;
        RunWords(s, cap, LexState(st.pos + n, 0, st.toks + [TokenAt(s, kind, st.pos, n)]));
        ReadsTake(s, st.toks, st.pos, kind, n, Run(s, Default, cap, st));
      case Reject =>
        match Step(s, Default, cap, st) {
          case Go(st') => ErrorsStay(s, Default, cap, st');
          case _ =>
        }
    }
  }

  /** The buffer `tkc_minify` and the other callers allocate. */
  function BufferFor(s: string): nat { |s| + 16 }

  /** The lexer accepts a text exactly when it has a token stream, and then returns that stream and the
      end-of-file token. */
  lemma LexWords(s: string)
    ensures var (n, toks) := Lex(s, Default, BufferFor(s));
            && (n >= 0 <==> Words(s).Some?)
            && (n >= 0 ==>
                  && n == |toks| == |Words(s).value| + 1 && toks[n - 1].kind == T.Eof
                  && Texts(s, toks[..n - 1]) == Words(s).value)
  {
    var st0 := LexState(0, 0, []);
    var cap := BufferFor(s);
    RunWords(s, cap, st0);
    assert s[0..] == s;
    LexerGeometry.RunRoom(s, Default, cap, cap, st0);
    LexerGeometry.RunGeometry(s, Default, cap, st0);
    hide Run, Words, LineAt, ColAt;
    var st := Run(s, Default, cap, st0).st;
    var toks := Lex(s, Default, cap).1;
    assert toks[..|toks| - 1] == st.toks;
  }
}
