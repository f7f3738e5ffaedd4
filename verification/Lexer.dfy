/** The lexer of `src/lexer.c`: a scanner state updated in place, proved to compute `LexerSpec.Lex`. */
module Lexer {
  import opened Wrappers
  import opened Chars
  import T = Tokens
  import opened LexerSpec

  class Lexer {
    const src: string
    const profile: Profile
    const out: array<Token>
    var pos: nat
    var line: nat
    var col: nat
    var outN: nat
    var errCount: nat

    ghost predicate Valid()
      reads this
    {
      && pos <= |src| && outN <= out.Length
      && line == LineAt(src, pos) && col == ColAt(src, pos)
    }

    ghost function State(): LexState
      reads this, out
      requires Valid()
    {
      LexState(pos, errCount, out[..outN])
    }

    constructor (src: string, profile: Profile, out: array<Token>)
      ensures Valid() && this.src == src && this.profile == profile && this.out == out
      ensures State() == LexState(0, 0, [])
    {
      this.src, this.profile, this.out := src, profile, out;
      pos, line, col, outN, errCount := 0, 1, 1, 0, 0;
    }

    /** `advance` */
    method Advance()
      requires Valid()
      modifies this`pos, this`line, this`col
      ensures Valid() && pos == if old(pos) < |src| then old(pos) + 1 else old(pos)
    {
      if pos < |src| {
        if src[pos] == '\n' { line, col := line + 1, 1; } else { col := col + 1; }
        pos := pos + 1;
      }
    }

    /** `while (pos < len && in_class(src[pos])) advance()` */
    method AdvanceWhile(cls: Class)
      requires Valid()
      modifies this`pos, this`line, this`col
      ensures Valid() && pos == Span(src, old(pos), cls)
    {
      while pos < |src| && In(src[pos], cls)
        invariant Valid() && Span(src, pos, cls) == Span(src, old(pos), cls)
        decreases |src| - pos
      {
        Advance();
      }
    }

    /** `emit` */
    method Emit(kind: T.TokenKind, start: nat, len: nat, l: nat, c: nat) returns (ok: bool)
      requires Valid()
      modifies this`outN, out
      ensures Valid() && ok == (old(outN) < out.Length)
      ensures out[..outN] == if ok then old(out[..outN]) + [Token(kind, start, len, l, c)] else old(out[..outN])
    {
      ok := outN < out.Length;
      if ok {
        out[outN] := Token(kind, start, len, l, c);
        outN := outN + 1;
      }
    }

    /** `record_error`: whether the limit is reached. */
    method RecordError() returns (limit: bool)
      requires Valid()
      modifies this`errCount
      ensures Valid() && errCount == old(errCount) + 1 && limit == (errCount >= MAX_ERRORS)
    {
      errCount := errCount + 1;
      limit := errCount >= MAX_ERRORS;
    }

    /** What a scanning helper leaves behind: it stands where `item` ends and has emitted its token, if
        there is one and there is room. */
    twostate predicate Scanned(item: Item, start: nat, ok: bool)
      requires old(Valid()) && Valid() && start <= |src|
      requires (item.Lexeme? || item.Bad?) && start <= item.next
      reads this, out
    {
      && pos == item.next && errCount == old(errCount)
      && (item.Bad? ==> !ok && out[..outN] == old(out[..outN]))
      && (item.Lexeme? ==>
            && ok == (old(outN) < out.Length)
            && out[..outN] == if ok then old(out[..outN]) + [TokenAt(src, item.kind, start, item.next - start)]
                              else old(out[..outN]))
    }

    /** `lex_ident`, entered behind the first character. */
    method LexIdent(start: nat, l: nat, c: nat) returns (ok: bool)
      requires Valid() && start < |src| && pos == start + 1 && l == LineAt(src, start) && c == ColAt(src, start)
      modifies this`pos, this`line, this`col, this`outN, out
      ensures Valid() && Scanned(ScanIdent(src, start, profile), start, ok)
    {
      AdvanceWhile(IdentC);
      if profile == Default && pos < |src| && src[pos] == '_' {
        AdvanceWhile(IdentLegacyC);
        return false;
      }
      var len := pos - start;
      var kind := Classify(src[start..pos], profile);
      if profile == Default && len == 1 {
        var ch := src[start];
        if IsUpper(ch) && pos < |src| && src[pos] == '=' {
          if IsUpperKeyword(ch) { return false; }
        }
      }
      ok := Emit(kind, start, len, l, c);
    }

    /** The common tail of `lex_number`. */
    method FinishNumber(start: nat, kind: T.TokenKind, l: nat, c: nat) returns (ok: bool)
      requires Valid() && start < pos && l == LineAt(src, start) && c == ColAt(src, start)
      modifies this`pos, this`line, this`col, this`outN, out
      ensures Valid() && Scanned(NumberEnd(src, old(pos), kind), start, ok)
    {
      if pos < |src| && IsLetter(src[pos]) {
        Advance();
        AdvanceWhile(IdentC);
        return false;
      }
      ok := Emit(kind, start, pos - start, l, c);
    }

    /** The digits behind `0x` or `0b`. */
    method LexRadix(start: nat, cls: Class, l: nat, c: nat) returns (ok: bool)
      requires Valid() && start < pos && l == LineAt(src, start) && c == ColAt(src, start)
      modifies this`pos, this`line, this`col, this`outN, out
      ensures Valid() && Scanned(ScanRadix(src, old(pos), cls), start, ok)
    {
      if pos >= |src| || !In(src[pos], cls) { return false; }
      AdvanceWhile(cls);
      ok := FinishNumber(start, T.IntLit, l, c);
    }

    /** `lex_number` */
    method LexNumber(start: nat, l: nat, c: nat) returns (ok: bool)
      requires Valid() && start == pos < |src| && IsDigit(src[start]) && l == LineAt(src, start)
               && c == ColAt(src, start)
      modifies this`pos, this`line, this`col, this`outN, out
      ensures Valid() && Scanned(ScanNumber(src, start), start, ok)
    {
      hide NumberEnd, ScanRadix, ScanDecimal, LineAt, ColAt, Span;
      if src[pos] == '0' && pos + 1 < |src| {
        var next := src[pos + 1];
        if next == 'x' || next == 'X' {
          Advance();
          Advance();
          ok := LexRadix(start, HexC, l, c);
          return;
        }
        if next == 'b' || next == 'B' {
          Advance();
          Advance();
          ok := LexRadix(start, BinC, l, c);
          return;
        }
      }
      ok := LexDecimal(start, l, c);
    }

    /** The decimal part of `lex_number`. */
    method LexDecimal(start: nat, l: nat, c: nat) returns (ok: bool)
      requires Valid() && start == pos < |src| && IsDigit(src[start]) && l == LineAt(src, start)
               && c == ColAt(src, start)
      modifies this`pos, this`line, this`col, this`outN, out
      ensures Valid() && Scanned(ScanDecimal(src, start), start, ok)
    {
      hide NumberEnd, LineAt, ColAt;
      var isFloat := false;
      AdvanceWhile(DigitC);
      if pos < |src| && src[pos] == '.' && pos + 1 < |src| && IsDigit(src[pos + 1]) {
        isFloat := true;
        Advance();
        AdvanceWhile(DigitC);
      }
      ok := FinishNumber(start, if isFloat then T.FloatLit else T.IntLit, l, c);
    }

    /** The interpolation part of `lex_string`, entered behind the opening parenthesis. */
    method SkipInterpolation()
      requires Valid()
      modifies this`pos, this`line, this`col
      ensures Valid() && pos == InterpEnd(src, old(pos), 1)
    {
      var depth := 1;
      while pos < |src| && depth > 0
        invariant Valid() && depth >= 0 && InterpEnd(src, pos, depth) == InterpEnd(src, old(pos), 1)
        decreases |src| - pos
      {
        if src[pos] == '(' { depth := depth + 1; } else if src[pos] == ')' { depth := depth - 1; }
        Advance();
      }
    }

    /** What `lex_string` leaves behind. */
    twostate predicate StringScanned(end: StrEnd, start: nat)
      requires old(Valid()) && Valid() && start <= |src| && start <= end.next
      reads this, out
    {
      && pos == end.next
      && (if end.Closed? then errCount == old(errCount) else errCount == end.errs)
      && out[..outN] ==
           if end.Closed? && old(outN) < out.Length
           then old(out[..outN]) + [TokenAt(src, T.StrLit, start, end.next - start)] else old(out[..outN])
    }

    /** One backslash escape of `lex_string`: whether the string has an error now, and whether the error
        limit stops the scan. */
    method LexEscape(had: bool) returns (hadError: bool, stop: bool)
      requires Valid() && pos < |src| && src[pos] == '\\'
      modifies this`pos, this`line, this`col, this`errCount
      ensures Valid() && old(pos) < pos && (!hadError ==> !had && errCount == old(errCount))
      ensures !stop ==> StrBody(src, pos, errCount, hadError) == StrBody(src, old(pos), old(errCount), had)
      ensures stop ==> StrBody(src, old(pos), old(errCount), had) == TooMany(pos, errCount)
    {
      hadError, stop := had, false;
      Advance();
      if pos >= |src| { return; }
      var esc := src[pos];
      if IsSimpleEscape(esc) {
        Advance();
      } else if esc == 'x' {
        Advance();
        if pos + 1 < |src| && IsHex(src[pos]) && IsHex(src[pos + 1]) {
          Advance();
          Advance();
        } else {
          hadError := true;
          stop := RecordError();
        }
      } else if esc == '(' {
        Advance();
        SkipInterpolation();
      } else {
        hadError := true;
        stop := RecordError();
        if !stop { Advance(); }
      }
    }

    /** `lex_string`, entered behind the opening quote. */
    method LexString(start: nat, l: nat, c: nat) returns (ok: bool)
      requires Valid() && start < |src| && pos == start + 1 && l == LineAt(src, start) && c == ColAt(src, start)
      modifies this, out
      ensures Valid() && StringScanned(StrBody(src, start + 1, old(errCount), false), start)
      ensures ok ==> StrBody(src, start + 1, old(errCount), false).Closed?
    {
      var hadError := false;
      while pos < |src|
        invariant Valid() && out[..outN] == old(out[..outN]) && outN == old(outN) && start < pos
        invariant StrBody(src, pos, errCount, hadError) == StrBody(src, start + 1, old(errCount), false)
        invariant !hadError ==> errCount == old(errCount)
        decreases |src| - pos
      {
        var ch := src[pos];
        if ch == '"' {
          Advance();
          if !hadError {
            ok := Emit(T.StrLit, start, pos - start, l, c);
            return;
          }
          return false;
        }
        if ch == '\\' {
          var stop;
          hadError, stop := LexEscape(hadError);
          if stop { return false; }
        } else {
          Advance();
        }
      }
      var _ := RecordError();
      ok := false;
    }

    /** The block comment, entered behind its opening. */
    method SkipComment()
      requires Valid()
      modifies this`pos, this`line, this`col
      ensures Valid() && pos == CommentEnd(src, old(pos), 1)
    {
      var depth := 1;
      while pos < |src| && depth > 0
        invariant Valid() && depth >= 0 && CommentEnd(src, pos, depth) == CommentEnd(src, old(pos), 1)
        decreases |src| - pos
      {
        if pos + 1 < |src| && src[pos] == '(' && src[pos + 1] == '*' {
          Advance();
          Advance();
          depth := depth + 1;
        } else if pos + 1 < |src| && src[pos] == '*' && src[pos + 1] == ')' {
          Advance();
          Advance();
          depth := depth - 1;
        } else {
          Advance();
        }
      }
    }

    ghost function Verdict(go: bool, abort: bool): StepOut
      reads this, out
      requires Valid()
    {
      if go then Go(State()) else if abort then Abort(State()) else Stop(State())
    }

    /** The symbol part of the main loop. */
    method LexSymbol() returns (go: bool, abort: bool)
      requires Valid() && pos < |src| && errCount < MAX_ERRORS
      requires Scan(src, pos, profile, errCount) == ScanSymbol(src, pos, profile)
      modifies this, out
      ensures Valid() && Verdict(go, abort) == Step(src, profile, out.Length, old(State()))
      ensures go ==> !abort && errCount < MAX_ERRORS
    {
      hide LineAt, ColAt, Pair, Single, StrBody, CommentEnd, ScanIdent, ScanNumber, IsLetter, IsDigit, IsWhitespace;
      var start, l, c := pos, line, col;
      go, abort := true, false;
      var ch := src[pos];
      if ch == '(' && pos + 1 < |src| && src[pos + 1] == '*' {
        Advance();
        Advance();
        SkipComment();
      } else if ch == '/' && pos + 1 < |src| && src[pos + 1] == '/' {
        AdvanceWhile(LineC);
      } else if pos + 1 < |src| && Pair(ch, src[pos + 1]).Some? {
        var kind := Pair(ch, src[pos + 1]).value;
        Advance();
        Advance();
        var ok := Emit(kind, start, 2, l, c);
        if !ok { go, abort := false, true; }
      } else if Single(ch, profile).None? {
        var limit := RecordError();
        if limit { go := false; } else { Advance(); }
      } else {
        Advance();
        var ok := Emit(Single(ch, profile).value, start, 1, l, c);
        if !ok { go, abort := false, true; }
      }
    }

    /** Identifiers, keywords and numbers in the main loop. */
    method LexWord() returns (go: bool)
      requires Valid() && pos < |src| && errCount < MAX_ERRORS
      requires IsLetter(src[pos]) || (src[pos] == '_' && profile == Legacy) || IsDigit(src[pos])
      modifies this, out
      ensures Valid() && Verdict(go, false) == Step(src, profile, out.Length, old(State()))
      ensures go ==> errCount < MAX_ERRORS
    {
      hide StrBody, ScanIdent, ScanNumber, ScanSymbol, LineAt, ColAt, Span;
      var start, l, c := pos, line, col;
      var ok;
      if IsDigit(src[pos]) {
        ok := LexNumber(start, l, c);
      } else {
        Advance();
        ok := LexIdent(start, l, c);
      }
      go := true;
      if !ok {
        var limit := RecordError();
        go := !limit;
      }
    }

    /** One turn of the main loop of `lex`. */
    method Turn() returns (go: bool, abort: bool)
      requires Valid() && pos < |src| && errCount < MAX_ERRORS
      modifies this, out
      ensures Valid() && Verdict(go, abort) == Step(src, profile, out.Length, old(State()))
      ensures go ==> !abort && errCount < MAX_ERRORS
    {
      hide StrBody, ScanIdent, ScanNumber, ScanSymbol, LineAt, ColAt;
      var start, l, c := pos, line, col;
      go, abort := true, false;
      var ch := src[pos];
      if IsWhitespace(ch) {
        Advance();
      } else if ch == '_' && profile == Default {
        Advance();
        AdvanceWhile(IdentLegacyC);
        var limit := RecordError();
        go := !limit;
      } else if IsLetter(ch) || ch == '_' || IsDigit(ch) {
        go := LexWord();
      } else if ch == '"' {
        Advance();
        var ok := LexString(start, l, c);
        if !ok && errCount >= MAX_ERRORS { go := false; }
      } else if ch == '#' {
        AdvanceWhile(LineC);
      } else {
        go, abort := LexSymbol();
      }
    }
  }

  /** `lex` */
  method Tokenize(src: string, out: array<Token>, profile: Profile) returns (n: int)
    modifies out
    ensures n == Lex(src, profile, out.Length).0
    ensures var toks := Lex(src, profile, out.Length).1; |toks| <= out.Length && out[..|toks|] == toks
  {
    var l := new Lexer(src, profile, out);
    var go, abort := true, false;
    while go && l.pos < |src|
      invariant fresh(l) && l.src == src && l.profile == profile && l.out == out && l.Valid()
      invariant go ==>
                  && !abort && l.errCount < MAX_ERRORS
                  && Run(src, profile, out.Length, l.State()) == Run(src, profile, out.Length, LexState(0, 0, []))
      invariant !go ==> l.Verdict(false, abort) == Run(src, profile, out.Length, LexState(0, 0, []))
      decreases |src| - l.pos, go
    {
      hide Step;
      go, abort := l.Turn();
    }
    if abort { return -1; }
    var ok := l.Emit(T.Eof, l.pos, 0, l.line, l.col);
    if !ok { return -1; }
    if l.errCount > 0 { return -1; }
    return l.outN;
  }
}
