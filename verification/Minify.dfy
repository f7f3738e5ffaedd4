/** `tkc_minify` and its output buffer. */
module Minify {
  import opened Wrappers
  import opened Chars
  import T = Tokens
  import opened LexerSpec
  import opened Lexemes
  import opened TokenBoundary
  import opened MinString
  import opened MinifySpec
  import Lexer
  import LexerGeometry

  /** The growing output buffer. */
  class Buf {
    var text: string

    constructor ()
      ensures text == ""
    {
      text := "";
    }

    method PutChar(c: char)
      modifies this
      ensures text == old(text) + [c]
    {
      text := text + [c];
    }

    method PutText(s: string)
      modifies this
      ensures text == old(text) + s
    {
      var k := 0;
      while k < |s|
        invariant k <= |s| && text == old(text) + s[..k]
      {
        PutChar(s[k]);
        k := k + 1;
      }
    }

    /** `min_put_str` */
    method PutStr(t: string)
      modifies this
      ensures text == old(text) + MinStr(t)
    {
      hide Escaped;
      var depth, k := 0, 0;
      while k < |t|
        invariant 0 <= k <= |t| && 0 <= depth
        invariant text + Escaped(t, k, depth) == old(text) + Escaped(t, 0, 0)
      {
        EscapedStep(t, k, depth);
        ghost var before, e := text, Escaped(t, k + Width(t, k, depth), After(t, k, depth));
        var c := t[k];
        if depth > 0 {
          if c == '(' { depth := depth + 1; } else if c == ')' { depth := depth - 1; }
          if c == '\n' || c == '\t' || c == '\r' { c := ' '; }
          PutChar(c);
          k := k + 1;
          Joined(before, [c], e);
        } else if c == '\\' && k + 1 < |t| {
          PutChar(c);
          PutChar(t[k + 1]);
          Joined(before, [c, t[k + 1]], e);
          if t[k + 1] == '(' { depth := 1; }
          k := k + 2;
        } else {
          if c == '\n' { PutText("\\n"); }
          else if c == '\t' { PutText("\\t"); }
          else if c == '\r' { PutText("\\r"); }
          else { PutChar(c); }
          k := k + 1;
          Joined(before, RawEscape(c), e);
        }
      }
      assert Escaped(t, |t|, depth) == "" by { EscapedEnd(t, depth); }
    }

    /** One token, behind a token that ends in `prev`. */
    method PutToken(kind: T.TokenKind, t: string, prev: char)
      requires t != ""
      modifies this
      ensures text == old(text) + Sep(prev, t) + Piece(Word(kind, t))
    {
      hide MinStr;
      var w0 := IsWord(prev);
      var w1 := IsWord(t[0]);
      if prev != '\0' && w0 && w1 { PutChar(' '); }
      if kind == T.StrLit { PutStr(t); } else { PutText(t); }
    }
  }

  function Sep(prev: char, t: string): string
    requires t != ""
  {
    if IsWordChar(prev) && IsWordChar(t[0]) then " " else ""
  }

  /** How far one turn of `min_put_str` goes, and how deep it then is. */
  function Width(t: string, k: nat, depth: nat): nat
    requires k < |t|
  {
    if depth == 0 && t[k] == '\\' && k + 1 < |t| then 2 else 1
  }

  function After(t: string, k: nat, depth: nat): nat
    requires k < |t|
  {
    if depth > 0 then Deeper(t[k], depth) else if t[k] == '\\' && k + 1 < |t| && t[k + 1] == '(' then 1 else 0
  }

  lemma EscapedStep(t: string, k: nat, depth: nat)
    requires k < |t|
    ensures Escaped(t, k, depth) ==
            (if depth > 0 then [Space(t[k])] else if Width(t, k, depth) == 2 then [t[k], t[k + 1]] else RawEscape(t[k]))
            + Escaped(t, k + Width(t, k, depth), After(t, k, depth))
  {
  }

  lemma EscapedEnd(t: string, depth: nat)
    ensures Escaped(t, |t|, depth) == ""
  {
  }

  lemma Joined(a: string, b: string, c: string)
    ensures a + b + c == a + (b + c)
  {
  }

  method IsWord(c: char) returns (r: bool)
    ensures r == IsWordChar(c)
  {
    return ('a' <= c <= 'z') || ('A' <= c <= 'Z') || ('0' <= c <= '9') || c == '_';
  }

  /** What is still to be written when the first `i` tokens are. */
  ghost function Pending(ws: seq<Word>, i: nat): string
    requires Nonempty(ws) && i <= |ws|
  {
    if i == |ws| then "" else if i == 0 then Out(ws) else Gap(ws[i - 1], ws[i]) + Out(ws[i..])
  }

  lemma PendingStep(ws: seq<Word>, i: nat)
    requires Nonempty(ws) && i < |ws|
    ensures Pending(ws, i) == (if i == 0 then "" else Gap(ws[i - 1], ws[i])) + Piece(ws[i]) + Pending(ws, i + 1)
  {
    var vs := ws[i..];
    hide Gap, Piece;
    assert Out(vs) == Piece(vs[0]) + Tail(vs);
    if i + 1 < |ws| { assert vs[1..] == ws[i + 1..]; }
    assert i == 0 ==> vs == ws;
  }

  lemma TokenAtIndex(s: string, toks: seq<Token>, i: nat)
    requires i < |toks|
    ensures Texts(s, toks)[i].kind == toks[i].kind
    ensures toks[i].start + toks[i].len <= |s|
            ==> Texts(s, toks)[i].text == s[toks[i].start..toks[i].start + toks[i].len]
  {
  }

  /** The facts about one token of an accepted program that the loop needs. */
  lemma TokenFacts(s: string, toks: seq<Token>, n: nat, i: nat)
    requires (n, toks) == Lex(s, Default, BufferFor(s)) && i + 1 < n
    ensures Words(s).Some? && n == |toks| == |Words(s).value| + 1
    ensures var t, w := toks[i], Words(s).value[i];
            && t.start + t.len <= |s| && w == Word(t.kind, s[t.start..t.start + t.len])
            && t.kind != T.Eof && t.len > 0
  {
    LexWords(s);
    LexerGeometry.LexGeometry(s, Default, BufferFor(s));
    WordsAreTokens(s);
    hide Lex, Words, Shape;
    TokenAtIndex(s, toks[..n - 1], i);
    ShapeKind(Words(s).value[i]);
    ShapeText(Words(s).value[i]);
    assert LexerGeometry.Placed(s, toks[i]);
  }

  /** The loop's state after `i` tokens: what is written, and the last character read. */
  ghost predicate Progress(ws: seq<Word>, i: nat, text: string, prev: char) {
    && Nonempty(ws) && i <= |ws| && text + Pending(ws, i) == Out(ws)
    && if i == 0 then prev == '\0' else prev == ws[i - 1].text[|ws[i - 1].text| - 1]
  }

  lemma Joined4(a: string, b: string, c: string, d: string)
    ensures a + b + c + d == a + (b + c + d)
  {
  }

  /** One turn of the loop, as seen from the whole output. */
  lemma TurnWrites(ws: seq<Word>, i: nat, before: string, prev: char, after: string)
    requires Progress(ws, i, before, prev) && i < |ws|
    requires after == before + Sep(prev, ws[i].text) + Piece(ws[i])
    ensures Progress(ws, i + 1, after, ws[i].text[|ws[i].text| - 1])
  {
    PendingStep(ws, i);
    var g := Sep(prev, ws[i].text);
    assert g == if i == 0 then "" else Gap(ws[i - 1], ws[i]);
    hide Out, Pending, Piece, Sep, Gap;
    Joined4(before, g, Piece(ws[i]), Pending(ws, i + 1));
  }

  /** `tkc_minify` */
  method Minify(src: string) returns (r: Option<string>)
    ensures r == Minified(src)
  {
    var cap := |src| + 16;
    var toks := new Token[cap];
    var nt := Lexer.Tokenize(src, toks, Default);
    LexWords(src);
    if nt < 0 { return None; }
    var b := Rewrite(src, toks[..nt]);
    return Some(b);
  }

  /** The loop over the tokens. */
  method Rewrite(src: string, toks: seq<Token>) returns (r: string)
    requires (|toks| as int, toks) == Lex(src, Default, BufferFor(src))
    ensures Minified(src) == Some(r)
  {
    hide Lex, Words, Minified, Out, Piece, Sep, Progress, Nonempty;
    Accepted(src, toks, |toks|);
    ghost var ws := Words(src).value;
    var b := new Buf();
    var prevLast, i := '\0', 0;
    while i < |toks| && toks[i].kind != T.Eof
      invariant 0 <= i < |toks| && Progress(ws, i, b.text, prevLast)
      modifies b
    {
      var kind, start, len := toks[i].kind, toks[i].start, toks[i].len;
      TokenFacts(src, toks, |toks|, i);
      if len > 0 {
        ghost var before := b.text;
        var t := src[start..start + len];
        b.PutToken(kind, t, prevLast);
        TurnWrites(ws, i, before, prevLast, b.text);
        prevLast := t[len - 1];
      }
      i := i + 1;
    }
    if i + 1 < |toks| { TokenFacts(src, toks, |toks|, i); }
    ProgressEnd(ws, b.text, prevLast);
    return b.text;
  }

  lemma ProgressEnd(ws: seq<Word>, text: string, prev: char)
    requires Progress(ws, |ws|, text, prev)
    ensures Nonempty(ws) && text == Out(ws)
  {
    assert text + "" == text;
  }

  /** What the loop starts from. */
  lemma Accepted(s: string, toks: seq<Token>, n: nat)
    requires (n as int, toks) == Lex(s, Default, BufferFor(s))
    ensures Words(s).Some? && n == |toks| == |Words(s).value| + 1 && toks[n - 1].kind == T.Eof
    ensures var ws := Words(s).value;
            Nonempty(ws) && Minified(s) == Some(Out(ws)) && Progress(ws, 0, "", '\0')
  {
    LexWords(s);
    RoundTrip(s);
    hide Lex, Words, Out, NoFuse, Texts;
    var ws := Words(s).value;
    assert ws == [] ==> Out(ws) == "" by { OutNone(); }
    assert "" + Pending(ws, 0) == Out(ws);
  }
}
