/** How the minifier rewrites string literals: `min_put_str`. */
module MinString {
  import opened Wrappers
  import opened Chars
  import opened LexerSpec
  import opened Lexemes
  import opened TokenBoundary

  predicate IsControl(c: char) { c == '\n' || c == '\t' || c == '\r' }

  /** A raw control character as an escape. */
  function RawEscape(c: char): string {
    if c == '\n' then "\\n" else if c == '\t' then "\\t" else if c == '\r' then "\\r" else [c]
  }

  function Space(c: char): char { if IsControl(c) then ' ' else c }

  /** The text written for `t` from `k` on, `depth` parentheses deep in an interpolation. */
  function Escaped(t: string, k: nat, depth: nat): string
    requires k <= |t|
    decreases |t| - k
  {
    if k == |t| then ""
    else if depth > 0 then [Space(t[k])] + Escaped(t, k + 1, Deeper(t[k], depth))
    else if t[k] == '\\' && k + 1 < |t| then [t[k], t[k + 1]] + Escaped(t, k + 2, if t[k + 1] == '(' then 1 else 0)
    else RawEscape(t[k]) + Escaped(t, k + 1, 0)
  }

  function MinStr(t: string): string { Escaped(t, 0, 0) }

  /** The interior of an interpolation as it is written: control characters become blanks. */
  function Spaced(t: string): (r: string)
    ensures |r| == |t|
    ensures forall i | 0 <= i < |t| :: r[i] == Space(t[i])
  {
    seq(|t|, i requires 0 <= i < |t| => Space(t[i]))
  }

  // ----- what a literal denotes -----

  /** A literal denotes bytes and the code of its interpolations. */
  datatype Part = Byte(value: nat) | Code(text: string)

  function HexValue(c: char): nat
    requires IsHex(c)
  {
    if IsDigit(c) then c as nat - '0' as nat
    else if 'a' <= c <= 'f' then c as nat - 'a' as nat + 10
    else c as nat - 'A' as nat + 10
  }

  function Unescaped(c: char): nat
    requires IsSimpleEscape(c)
  {
    if c == 'n' then 10 else if c == 't' then 9 else if c == 'r' then 13 else if c == '0' then 0 else c as nat
  }

  /** The part that stands at `i`, where a literal goes on to `next`. */
  function PartAt(t: string, i: nat): Part
    requires i < |t| && MoveAt(t, i).Over?
  {
    if t[i] != '\\' then Byte(t[i] as nat)
    else if t[i + 1] == 'x' then Byte(16 * HexValue(t[i + 2]) + HexValue(t[i + 3]))
    else if t[i + 1] == '(' then Code(t[i + 2..MoveAt(t, i).next])
    else Byte(Unescaped(t[i + 1]))
  }

  /** What the body of a literal denotes from `i` to its closing quote. */
  function Parts(t: string, i: nat): seq<Part>
    requires i <= |t| && Closes(t, i).Some?
    decreases |t| - i
  {
    match MoveAt(t, i)
    case Close => []
    case Over(n) => [PartAt(t, i)] + Parts(t, n)
  }

  function Meaning(t: string): seq<Part>
    requires |t| > 0 && Closes(t, 1).Some?
  {
    Parts(t, 1)
  }

  /** The same code with its white space normalised. */
  function Normal(p: Part): Part {
    match p
    case Byte(_) => p
    case Code(text) => Code(Spaced(text))
  }

  function Normals(ps: seq<Part>): seq<Part> {
    if ps == [] then [] else [Normal(ps[0])] + Normals(ps[1..])
  }

  // ----- interpolations -----

  lemma SpacedCons(t: string, j: nat, n: nat, rest: string)
    requires j < n <= |t|
    ensures Spaced(t[j..n]) + rest == [Space(t[j])] + (Spaced(t[j + 1..n]) + rest)
  {
    assert t[j..n] == [t[j]] + t[j + 1..n];
    assert Spaced(t[j..n]) == [Space(t[j])] + Spaced(t[j + 1..n]);
  }

  /** Inside an interpolation the writer follows the lexer's count of parentheses. */
  lemma {:induction false} EscapedInterp(t: string, j: nat, depth: nat)
    requires j <= |t| && InterpEnd(t, j, depth) < |t|
    ensures Escaped(t, j, depth) == Spaced(t[j..InterpEnd(t, j, depth)]) + Escaped(t, InterpEnd(t, j, depth), 0)
    decreases |t| - j
  {
    var n := InterpEnd(t, j, depth);
    if depth == 0 {
      assert t[j..j] == "";
    } else {
      var d := Deeper(t[j], depth);
      assert InterpEnd(t, j + 1, d) == n;
      assert Escaped(t, j, depth) == [Space(t[j])] + Escaped(t, j + 1, d);
      hide Deeper, Space, InterpEnd, Escaped;
      EscapedInterp(t, j + 1, d);
      SpacedCons(t, j, n, Escaped(t, n, 0));
    }
  }

  /** Blanks for control characters do not move the end of an interpolation. */
  lemma {:induction false} InterpSpaced(t: string, j: nat, depth: nat, u: string, k: nat)
    requires j <= |t| && depth > 0 && InterpEnd(t, j, depth) < |t|
    requires var n := InterpEnd(t, j, depth); k + (n - j) < |u| && u[k..k + (n - j)] == Spaced(t[j..n])
    ensures InterpEnd(u, k, depth) == k + (InterpEnd(t, j, depth) - j)
    decreases |t| - j
  {
    var n := InterpEnd(t, j, depth);
    if j == |t| { return; }
    var d := Deeper(t[j], depth);
    assert InterpEnd(t, j + 1, d) == n;
    assert u[k] == u[k..k + (n - j)][0] == Space(t[j]);
    if d > 0 {
      assert u[k + 1..k + 1 + (n - (j + 1))] == Spaced(t[j + 1..n]) by {
        assert u[k + 1..k + 1 + (n - (j + 1))] == u[k..k + (n - j)][1..];
      }
      InterpSpaced(t, j + 1, d, u, k + 1);
    } else {
      assert n == j + 1;
    }
  }

  // ----- one step of the writer -----

  /** What is written for the part at `i`. */
  function Chunk(t: string, i: nat): string
    requires i < |t| && MoveAt(t, i).Over?
  {
    if t[i] != '\\' then RawEscape(t[i])
    else if t[i + 1] == '(' then "\\(" + Spaced(t[i + 2..MoveAt(t, i).next])
    else t[i..MoveAt(t, i).next]
  }

  lemma ChunkEscaped(t: string, i: nat)
    requires i < |t| && MoveAt(t, i).Over? && MoveAt(t, i).next < |t|
    ensures Escaped(t, i, 0) == Chunk(t, i) + Escaped(t, MoveAt(t, i).next, 0)
  {
    var n := MoveAt(t, i).next;
    if t[i] == '\\' {
      if t[i + 1] == '(' {
        EscapedInterp(t, i + 2, 1);
        hide InterpEnd, Spaced;
      } else if t[i + 1] == 'x' {
        hide InterpEnd;
        assert Escaped(t, i + 2, 0) == [t[i + 2]] + Escaped(t, i + 3, 0);
        assert Escaped(t, i + 3, 0) == [t[i + 3]] + Escaped(t, i + 4, 0);
        assert t[i..n] == [t[i], t[i + 1]] + [t[i + 2]] + [t[i + 3]];
      } else {
        hide InterpEnd;
        assert t[i..n] == [t[i], t[i + 1]];
      }
    }
  }

  /** The lexer reads that chunk as one part, with the same value. */
  lemma ChunkMove(t: string, i: nat, r: string)
    requires i < |t| && MoveAt(t, i).Over? && MoveAt(t, i).next < |t| && r != ""
    ensures var u := Chunk(t, i) + r;
            MoveAt(u, 0) == Over(|Chunk(t, i)|) && PartAt(u, 0) == Normal(PartAt(t, i))
  {
    var x := Chunk(t, i);
    var u := x + r;
    var n := MoveAt(t, i).next;
    assert forall k | 0 <= k < |x| :: u[k] == x[k];
    if t[i] == '\\' && t[i + 1] == '(' {
      assert u[2..2 + (n - (i + 2))] == Spaced(t[i + 2..n]);
      InterpSpaced(t, i + 2, 1, u, 2);
    }
    hide InterpEnd;
  }

  lemma {:induction false} PartsShift(s: string, k: nat, i: nat)
    requires k + i <= |s| && Closes(s, k + i).Some?
    ensures Closes(s[k..], i).Some? && Parts(s, k + i) == Parts(s[k..], i)
    decreases |s| - i
  {
    ClosesShift(s, k, i);
    MoveShift(s, k, i);
    var m := MoveAt(s[k..], i);
    if m.Over? {
      assert PartAt(s, k + i) == PartAt(s[k..], i) by {
        hide InterpEnd;
        assert s[k + i + 1..] != "" && s[k + i] == '\\' && s[k + i + 1] == '('
               ==> s[k + i + 2..k + m.next] == s[k..][i + 2..m.next];
      }
      hide MoveAt, PartAt;
      PartsShift(s, k, m.next);
    }
  }

  /** A part in front of a body. */
  lemma PartInFront(x: string, e: string)
    requires x + e != "" && MoveAt(x + e, 0) == Over(|x|) && Closes(e, 0).Some?
    ensures Closes(x + e, 0) == Some(|x| + Closes(e, 0).value)
    ensures Parts(x + e, 0) == [PartAt(x + e, 0)] + Parts(e, 0)
  {
    CloseInFront(x, e);
    hide MoveAt, PartAt, Closes;
    assert (x + e)[|x|..] == e;
    PartsShift(x + e, |x|, 0);
  }

  lemma CloseInFront(x: string, e: string)
    requires x + e != "" && MoveAt(x + e, 0) == Over(|x|) && Closes(e, 0).Some?
    ensures Closes(x + e, |x|).Some? && Closes(x + e, 0) == Some(|x| + Closes(e, 0).value)
  {
    hide MoveAt;
    assert (x + e)[|x|..] == e;
    ClosesShift(x + e, |x|, 0);
  }

  lemma NormalsCons(p: Part, ps: seq<Part>)
    ensures Normals([p] + ps) == [Normal(p)] + Normals(ps)
  {
    assert ([p] + ps)[1..] == ps;
  }

  /** The rewritten body closes exactly where the original does and denotes the same parts. */
  lemma {:induction false} EscapedBody(t: string, i: nat)
    requires i <= |t| && Closes(t, i) == Some(|t|)
    ensures var e := Escaped(t, i, 0);
            Closes(e, 0) == Some(|e|) && Parts(e, 0) == Normals(Parts(t, i))
    decreases |t| - i
  {
    hide InterpEnd, PartAt, Normal, Normals, Chunk;
    var m := MoveAt(t, i);
    if m.Over? {
      assert Closes(t, m.next) == Some(|t|);
      assert Parts(t, i) == [PartAt(t, i)] + Parts(t, m.next);
      MoveCut(t, |t|, i);
      ChunkEscaped(t, i);
      hide MoveAt, Escaped, Closes, Parts;
      EscapedBody(t, m.next);
      var e := Escaped(t, m.next, 0);
      ClosesNonempty(e);
      ChunkMove(t, i, e);
      PartInFront(Chunk(t, i), e);
      NormalsCons(PartAt(t, i), Parts(t, m.next));
    } else {
      assert Escaped(t, i, 0) == "\"";
      assert Normals([]) == [] by { NoNormals(); }
    }
  }

  lemma NoNormals()
    ensures Normals([]) == []
  {
  }

  lemma ClosesNonempty(e: string)
    requires Closes(e, 0).Some?
    ensures e != ""
  {
  }

  /** Main theorem: for every string token, the rewritten text is again one string token and denotes the
      same bytes and the same interpolated code up to white space. */
  lemma MinStrKeepsMeaning(t: string)
    requires |t| > 0 && t[0] == '"' && Closes(t, 1) == Some(|t|)
    ensures var u := MinStr(t);
            |u| > 0 && u[0] == '"' && Closes(u, 1) == Some(|u|) && Meaning(u) == Normals(Meaning(t))
  {
    EscapedBody(t, 1);
    var e := Escaped(t, 1, 0);
    var u := MinStr(t);
    assert u == "\"" + e;
    assert u[1..] == e;
    hide Escaped, MinStr;
    ClosesShift(u, 1, 0);
    PartsShift(u, 1, 0);
  }

  // ----- one line, once -----

  predicate OneLine(t: string) { forall i | 0 <= i < |t| :: !IsControl(t[i]) }

  lemma ChunkOneLine(t: string, i: nat)
    requires i < |t| && MoveAt(t, i).Over?
    ensures OneLine(Chunk(t, i))
  {
    hide InterpEnd;
  }

  lemma {:induction false} EscapedOneLine(t: string, k: nat)
    requires k <= |t| && Closes(t, k) == Some(|t|)
    ensures OneLine(Escaped(t, k, 0))
    decreases |t| - k
  {
    hide InterpEnd, Chunk;
    var m := MoveAt(t, k);
    if m.Over? {
      assert Closes(t, m.next) == Some(|t|);
      MoveCut(t, |t|, k);
      ChunkEscaped(t, k);
      hide MoveAt, Escaped, Closes;
      EscapedOneLine(t, m.next);
      ChunkOneLine(t, k);
    } else {
      assert Escaped(t, k, 0) == "\"";
    }
  }

  /** A body without control characters is written as it is. */
  lemma {:induction false} EscapedSame(t: string, k: nat, depth: nat)
    requires k <= |t| && OneLine(t)
    ensures Escaped(t, k, depth) == t[k..]
    decreases |t| - k
  {
    if k < |t| {
      if depth > 0 { EscapedSame(t, k + 1, Deeper(t[k], depth)); }
      else if t[k] == '\\' && k + 1 < |t| { EscapedSame(t, k + 2, if t[k + 1] == '(' then 1 else 0); }
      else { EscapedSame(t, k + 1, 0); }
    }
  }

  /** The rewritten literal has no line break or tab, and rewriting it again changes nothing. */
  lemma MinStrOneLine(t: string)
    requires |t| > 0 && t[0] == '"' && Closes(t, 1) == Some(|t|)
    ensures OneLine(MinStr(t))
    ensures MinStr(MinStr(t)) == MinStr(t)
  {
    EscapedOneLine(t, 1);
    assert MinStr(t) == "\"" + Escaped(t, 1, 0);
    EscapedSame(MinStr(t), 0, 0);
  }
}
