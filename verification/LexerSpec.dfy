/**
 What one pass of `src/lexer.c` computes: the scanning rules as functions of the source text, and the
 run of the main loop, error recovery and buffer limits included.
 */
module LexerSpec {
  import opened Wrappers
  import opened Chars
  import T = Tokens

  datatype Profile = Default | Legacy

  datatype Token = Token(kind: T.TokenKind, start: nat, len: nat, line: nat, col: nat)

  const MAX_ERRORS := 20

  // ----- characters -----

  predicate IsHex(c: char) { IsDigit(c) || 'a' <= c <= 'f' || 'A' <= c <= 'F' }

  predicate IsWhitespace(c: char) { c == ' ' || c == '\t' || c == '\r' || c == '\n' }

  /** The character sets that the scanning loops run over. */
  datatype Class = IdentC | IdentLegacyC | DigitC | HexC | BinC | LineC

  predicate In(c: char, cls: Class) {
    match cls
    case IdentC => IsLetter(c) || IsDigit(c)
    case IdentLegacyC => IsLetter(c) || IsDigit(c) || c == '_'
    case DigitC => IsDigit(c)
    case HexC => IsHex(c)
    case BinC => c == '0' || c == '1'
    case LineC => c != '\n'
  }

  /** The end of the longest run of `cls` characters from `i`. */
  function Span(s: string, i: nat, cls: Class): (e: nat)
    requires i <= |s|
    ensures i <= e <= |s|
    decreases |s| - i
  {
    if i < |s| && In(s[i], cls) then Span(s, i + 1, cls) else i
  }

  // ----- positions -----

  function LineAt(s: string, i: nat): nat
    requires i <= |s|
  {
    if i == 0 then 1 else LineAt(s, i - 1) + if s[i - 1] == '\n' then 1 else 0
  }

  function ColAt(s: string, i: nat): nat
    requires i <= |s|
  {
    if i == 0 || s[i - 1] == '\n' then 1 else ColAt(s, i - 1) + 1
  }

  // ----- identifiers and keywords -----

  function LegacyKeywords(): map<string, T.TokenKind> {
    map["F" := T.KwF, "T" := T.KwT, "I" := T.KwI, "M" := T.KwM]
  }

  function Keywords(): map<string, T.TokenKind> {
    map["if" := T.KwIf, "el" := T.KwEl, "lp" := T.KwLp, "br" := T.KwBr, "let" := T.KwLet, "mut" := T.KwMut,
        "as" := T.KwAs, "rt" := T.KwRt, "sc" := T.KwSc, "mt" := T.KwMt, "true" := T.BoolLit, "false" := T.BoolLit]
  }

  /** `classify_ident` */
  function Classify(w: string, profile: Profile): T.TokenKind
    requires w != []
  {
    if |w| < 32 && profile == Legacy && w in LegacyKeywords() then LegacyKeywords()[w]
    else if |w| < 32 && w in Keywords() then Keywords()[w]
    else if IsUpper(w[0]) then T.TypeIdent
    else T.Ident
  }

  /** A word with an upper-case first letter that is no legacy keyword is a type identifier, in both profiles. */
  lemma UpperIsType(w: string, profile: Profile)
    requires w != [] && IsUpper(w[0]) && !(profile == Legacy && (w == "F" || w == "T" || w == "I" || w == "M"))
    ensures Classify(w, profile) == T.TypeIdent
  {
    assert w !in Keywords();
  }

  /** The single upper-case letters that are not keywords before `=` in the default profile. */
  predicate IsUpperKeyword(c: char) {
    c == 'M' || c == 'F' || c == 'T' || c == 'I' || c == 'C'
  }

  /** What the scanner makes of the text at one position. */
  datatype Item =
    | Blank(next: nat)                                   // white space or a comment
    | Lexeme(kind: T.TokenKind, next: nat, symbol: bool)   // a token up to `next`
    | Bad(next: nat)                                     // an error; the offending text is passed over
    | BadChar                                            // an error at this character
    | Str(end: StrEnd)                                   // a string literal

  /** `lex_ident` */
  function ScanIdent(s: string, i: nat, profile: Profile): (r: Item)
    requires i < |s|
    ensures r.Bad? ==> i < r.next <= |s|
    ensures r.Lexeme? ==> i < r.next <= |s| && !r.symbol
    ensures r.Bad? || r.Lexeme?
  {
    var e := Span(s, i + 1, IdentC);
    if profile == Default && e < |s| && s[e] == '_' then Bad(Span(s, e, IdentLegacyC))
    else if profile == Default && e == i + 1 && IsUpperKeyword(s[i]) && e < |s| && s[e] == '=' then Bad(e)
    else Lexeme(Classify(s[i..e], profile), e, false)
  }

  // ----- numbers -----

  /** The end of a number literal: a letter behind it makes it a bad identifier. */
  function NumberEnd(s: string, e: nat, kind: T.TokenKind): (r: Item)
    requires e <= |s|
    ensures r.Bad? ==> e < r.next <= |s|
    ensures r.Lexeme? ==> r.next == e && r.kind == kind && !r.symbol
    ensures r.Bad? || r.Lexeme?
  {
    if e < |s| && IsLetter(s[e]) then Bad(Span(s, e + 1, IdentC)) else Lexeme(kind, e, false)
  }

  /** The digits of a hexadecimal or binary literal; there must be one. */
  function ScanRadix(s: string, e: nat, cls: Class): (r: Item)
    requires e <= |s|
    ensures r.Bad? ==> e <= r.next <= |s|
    ensures r.Lexeme? ==> e < r.next <= |s| && !r.symbol
    ensures r.Bad? || r.Lexeme?
  {
    if e < |s| && In(s[e], cls) then NumberEnd(s, Span(s, e, cls), T.IntLit) else Bad(e)
  }

  /** Digits, and a fraction when a digit follows the dot. */
  function ScanDecimal(s: string, i: nat): (r: Item)
    requires i < |s|
    ensures r.Bad? ==> i < r.next <= |s|
    ensures r.Lexeme? ==> i < r.next <= |s| && !r.symbol
    ensures r.Bad? || r.Lexeme?
  {
    var e := Span(s, i + 1, DigitC);
    if e + 1 < |s| && s[e] == '.' && IsDigit(s[e + 1]) then NumberEnd(s, Span(s, e + 1, DigitC), T.FloatLit)
    else NumberEnd(s, e, T.IntLit)
  }

  /** `lex_number` */
  function ScanNumber(s: string, i: nat): (r: Item)
    requires i < |s| && IsDigit(s[i])
    ensures r.Bad? ==> i < r.next <= |s|
    ensures r.Lexeme? ==> i < r.next <= |s| && !r.symbol
    ensures r.Bad? || r.Lexeme?
  {
    if s[i] == '0' && i + 1 < |s| && (s[i + 1] == 'x' || s[i + 1] == 'X') then ScanRadix(s, i + 2, HexC)
    else if s[i] == '0' && i + 1 < |s| && (s[i + 1] == 'b' || s[i + 1] == 'B') then ScanRadix(s, i + 2, BinC)
    else ScanDecimal(s, i)
  }

  // ----- strings -----

  datatype StrEnd =
    | Closed(next: nat)                        // a string token
    | ClosedBad(next: nat, errs: nat)          // closed, but with bad escapes
    | Unterminated(next: nat, errs: nat)       // the text ended first
    | TooMany(next: nat, errs: nat)            // the error limit was reached inside

  predicate IsSimpleEscape(c: char) {
    c == '"' || c == '\\' || c == 'n' || c == 't' || c == 'r' || c == '0'
  }

  /** The depth of parentheses behind a character inside an interpolation. */
  function Deeper(c: char, depth: nat): nat
    requires depth > 0
  {
    if c == '(' then depth + 1 else if c == ')' then depth - 1 else depth
  }

  /** Behind the parenthesis that closes an interpolation; only parentheses count. */
  function InterpEnd(s: string, j: nat, depth: nat): (e: nat)
    requires j <= |s|
    ensures j <= e <= |s|
    decreases |s| - j
  {
    if j == |s| || depth == 0 then j
    else InterpEnd(s, j + 1, Deeper(s[j], depth))
  }

  /** `lex_string` from `i` on, with `errs` errors recorded so far and `bad` when one is in this string. */
  function StrBody(s: string, i: nat, errs: nat, bad: bool): (r: StrEnd)
    requires i <= |s|
    ensures i <= r.next <= |s| && (r.Closed? ==> i < r.next)
    ensures !r.Closed? ==> errs <= r.errs && (errs < MAX_ERRORS ==> r.errs <= MAX_ERRORS)
    ensures errs < MAX_ERRORS && r.ClosedBad? ==> r.errs < MAX_ERRORS
    ensures !bad && !r.Closed? ==> errs < r.errs
    ensures r.TooMany? ==> r.errs >= MAX_ERRORS
    ensures bad ==> !r.Closed?
    decreases |s| - i
  {
    if i == |s| then Unterminated(i, errs + 1)
    else if s[i] == '"' then if bad then ClosedBad(i + 1, errs) else Closed(i + 1)
    else if s[i] != '\\' then StrBody(s, i + 1, errs, bad)
    else if i + 1 == |s| then Unterminated(i + 1, errs + 1)
    else if IsSimpleEscape(s[i + 1]) then StrBody(s, i + 2, errs, bad)
    else if s[i + 1] == 'x' then
      if i + 3 < |s| && IsHex(s[i + 2]) && IsHex(s[i + 3]) then StrBody(s, i + 4, errs, bad)
      else if errs + 1 >= MAX_ERRORS then TooMany(i + 2, errs + 1)
      else StrBody(s, i + 2, errs + 1, true)
    else if s[i + 1] == '(' then StrBody(s, InterpEnd(s, i + 2, 1), errs, bad)
    else if errs + 1 >= MAX_ERRORS then TooMany(i + 1, errs + 1)
    else StrBody(s, i + 2, errs + 1, true)
  }

  // ----- comments and symbols -----

  /** Behind a block comment of nesting `depth`; an unclosed comment runs to the end of the text. */
  function CommentEnd(s: string, j: nat, depth: nat): (e: nat)
    requires j <= |s|
    ensures j <= e <= |s|
    decreases |s| - j
  {
    if j == |s| || depth == 0 then j
    else if j + 1 < |s| && s[j] == '(' && s[j + 1] == '*' then CommentEnd(s, j + 2, depth + 1)
    else if j + 1 < |s| && s[j] == '*' && s[j + 1] == ')' then CommentEnd(s, j + 2, depth - 1)
    else CommentEnd(s, j + 1, depth)
  }

  /** The two-character symbols. */
  function Pair(c: char, d: char): Option<T.TokenKind> {
    if c == '=' && d == '=' then Some(T.EqEq)
    else if c == '<' && d == '=' then Some(T.Le)
    else if c == '<' && d == '<' then Some(T.Shl)
    else if c == '>' && d == '=' then Some(T.Ge)
    else if c == '>' && d == '>' then Some(T.Shr)
    else if c == '!' && d == '=' then Some(T.Ne)
    else if c == '|' && d == '|' then Some(T.Or)
    else if c == '&' && d == '&' then Some(T.And)
    else None
  }

  /** The one-character symbols. */
  function Single(c: char, profile: Profile): Option<T.TokenKind> {
    if c == '(' then Some(T.LParen)
    else if c == ')' then Some(T.RParen)
    else if c == '{' then Some(T.LBrace)
    else if c == '}' then Some(T.RBrace)
    else if c == '[' then if profile == Default then None else Some(T.LBracket)
    else if c == ']' then if profile == Default then None else Some(T.RBracket)
    else if c == '=' then Some(T.Eq)
    else if c == ':' then Some(T.Colon)
    else if c == '.' then Some(T.Dot)
    else if c == ';' then Some(T.Semi)
    else if c == '+' then Some(T.Plus)
    else if c == '-' then Some(T.Minus)
    else if c == '*' then Some(T.Star)
    else if c == '/' then Some(T.Slash)
    else if c == '<' then Some(T.Lt)
    else if c == '>' then Some(T.Gt)
    else if c == '!' then Some(T.Bang)
    else if c == '|' then Some(T.Pipe)
    else if c == '&' then Some(T.Amp)
    else if c == '^' then Some(T.Caret)
    else if c == '~' then Some(T.Tilde)
    else if c == '%' then Some(T.Percent)
    else if c == '$' then if profile == Legacy then None else Some(T.Dollar)
    else if c == '@' then if profile == Legacy then None else Some(T.At)
    else None
  }

  function ScanSymbol(s: string, i: nat, profile: Profile): (r: Item)
    requires i < |s|
    ensures r.Blank? || r.Lexeme? ==> i < r.next <= |s|
    ensures r.Blank? || r.Lexeme? || r.BadChar?
  {
    if s[i] == '(' && i + 1 < |s| && s[i + 1] == '*' then Blank(CommentEnd(s, i + 2, 1))
    else if s[i] == '/' && i + 1 < |s| && s[i + 1] == '/' then Blank(Span(s, i + 1, LineC))
    else if i + 1 < |s| && Pair(s[i], s[i + 1]).Some? then Lexeme(Pair(s[i], s[i + 1]).value, i + 2, true)
    else
      match Single(s[i], profile)
      case Some(k) => Lexeme(k, i + 1, true)
      case None => BadChar
  }

  /** One turn of the main loop. */
  function Scan(s: string, i: nat, profile: Profile, errs: nat): (r: Item)
    requires i < |s|
    ensures r.Blank? || r.Lexeme? || r.Bad? ==> i < r.next <= |s|
    ensures r.Str? ==> i < r.end.next <= |s|
  {
    var c := s[i];
    if IsWhitespace(c) then Blank(i + 1)
    else if c == '_' && profile == Default then Bad(Span(s, i + 1, IdentLegacyC))
    else if IsLetter(c) || c == '_' then ScanIdent(s, i, profile)
    else if IsDigit(c) then ScanNumber(s, i)
    else if c == '"' then Str(StrBody(s, i + 1, errs, false))
    else if c == '#' then Blank(Span(s, i + 1, LineC))
    else ScanSymbol(s, i, profile)
  }

  // ----- the run -----

  /** Read position, errors recorded, tokens emitted. */
  datatype LexState = LexState(pos: nat, errs: nat, toks: seq<Token>)

  /** The loop goes on, ends with the end-of-file token, or gives up because the buffer is full. */
  datatype StepOut = Go(st: LexState) | Stop(st: LexState) | Abort(st: LexState)

  function TokenAt(s: string, kind: T.TokenKind, start: nat, len: nat): Token
    requires start <= |s|
  {
    Token(kind, start, len, LineAt(s, start), ColAt(s, start))
  }

  function Error(st: LexState): StepOut {
    if st.errs + 1 >= MAX_ERRORS then Stop(st.(errs := st.errs + 1)) else Go(st.(errs := st.errs + 1))
  }

  function Step(s: string, profile: Profile, cap: nat, st: LexState): (r: StepOut)
    requires st.pos < |s|
    ensures st.pos <= r.st.pos <= |s| && (r.Go? ==> st.pos < r.st.pos)
  {
    match Scan(s, st.pos, profile, st.errs)
    case Blank(next) => Go(st.(pos := next))
    case Lexeme(kind, next, symbol) =>
      if |st.toks| < cap then Go(LexState(next, st.errs, st.toks + [TokenAt(s, kind, st.pos, next - st.pos)]))
      else if symbol then Abort(st.(pos := next))
      else Error(st.(pos := next))
    case Bad(next) => Error(st.(pos := next))
    case BadChar => if st.errs + 1 >= MAX_ERRORS then Error(st) else Error(st.(pos := st.pos + 1))
    case Str(end) =>
      match end
      case Closed(next) =>
        if |st.toks| < cap then Go(LexState(next, st.errs, st.toks + [TokenAt(s, T.StrLit, st.pos, next - st.pos)]))
        else Go(st.(pos := next))
      case ClosedBad(next, errs) => Go(st.(pos := next, errs := errs))
      case Unterminated(next, errs) =>
        if errs >= MAX_ERRORS then Stop(st.(pos := next, errs := errs)) else Go(st.(pos := next, errs := errs))
      case TooMany(next, errs) => Stop(st.(pos := next, errs := errs))
  }

  function Run(s: string, profile: Profile, cap: nat, st: LexState): (r: StepOut)
    requires st.pos <= |s|
    ensures !r.Go? && r.st.pos <= |s|
    decreases |s| - st.pos
  {
    if st.pos == |s| then Stop(st)
    else
      match Step(s, profile, cap, st)
      case Go(st') => Run(s, profile, cap, st')
      case r => r
  }

  /** The whole lexer: the return value of `lex` (a token count, or -1) and the tokens in the buffer. */
  function Lex(s: string, profile: Profile, cap: nat): (int, seq<Token>) {
    match Run(s, profile, cap, LexState(0, 0, []))
    case Abort(st) => (-1, st.toks)
    case Stop(st) =>
      if |st.toks| >= cap then (-1, st.toks)
      else
        var toks := st.toks + [TokenAt(s, T.Eof, st.pos, 0)];
        (if st.errs > 0 then -1 else |toks|, toks)
  }
}
