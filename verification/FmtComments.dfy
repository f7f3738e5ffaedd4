/**
 The formatter's comment cursor: `fs_emit_comments_before`, `fs_emit_trailing_comments` and the last call
 of `tkc_format`. No comment is lost, repeated or reordered, whatever the printers do in between.
 */
module FmtComments {
  import opened FmtPairs

  const INT_MAX := 0x7FFF_FFFF

  /** A piece of output: a comment of the source, line breaks and indentation around comments, or printed text. */
  datatype Piece = Note(k: nat) | Space(text: string) | Text(text: string)

  /** The comments among some pieces, by number. */
  function Notes(ps: seq<Piece>): seq<nat> {
    if ps == [] then [] else (if ps[0].Note? then [ps[0].k] else []) + Notes(ps[1..])
  }

  /** The printed texts among some pieces. */
  function Texts(ps: seq<Piece>): seq<string> {
    if ps == [] then [] else (if ps[0].Text? then [ps[0].text] else []) + Texts(ps[1..])
  }

  function UpTo(n: nat): seq<nat> { if n == 0 then [] else UpTo(n - 1) + [n - 1] }

  lemma {:induction false} NotesJoin(ps: seq<Piece>, qs: seq<Piece>)
    ensures Notes(ps + qs) == Notes(ps) + Notes(qs) && Texts(ps + qs) == Texts(ps) + Texts(qs)
  {
    if ps == [] {
      assert ps + qs == qs;
    } else {
      var all := ps + qs;
      assert all[1..] == ps[1..] + qs && all[0] == ps[0];
      NotesJoin(ps[1..], qs);
      NotesStep(all);
      NotesStep(ps);
      hide Notes, Texts;
    }
  }

  lemma NotesStep(ps: seq<Piece>)
    requires ps != []
    ensures Notes(ps) == (if ps[0].Note? then [ps[0].k] else []) + Notes(ps[1..])
    ensures Texts(ps) == (if ps[0].Text? then [ps[0].text] else []) + Texts(ps[1..])
  {
  }

  lemma {:induction false} UpToLists(n: nat)
    ensures |UpTo(n)| == n && forall k | 0 <= k < n :: UpTo(n)[k] == k
  {
    if n > 0 { UpToLists(n - 1); }
  }

  /** The comments the cursor passes for a position. */
  function Advance(cs: seq<FmtComment>, next: nat, pos: int): (n: nat)
    requires next <= |cs|
    ensures next <= n <= |cs|
    ensures forall k | next <= k < n :: cs[k].start < pos
    ensures n < |cs| ==> cs[n].start >= pos
    decreases |cs| - next
  {
    if next < |cs| && cs[next].start < pos then Advance(cs, next + 1, pos) else next
  }

  /** What the printers ask for: comments before a statement, comments before a closing brace, text. */
  datatype Op = Before(pos: int, depth: nat) | Trailing(end: int, depth: nat) | Print(text: string)

  function Target(cs: seq<FmtComment>, next: nat, op: Op): (n: nat)
    requires next <= |cs|
    ensures next <= n <= |cs|
  {
    match op
    case Before(pos, _) => Advance(cs, next, pos)
    case Trailing(end, _) => if end < 0 then next else Advance(cs, next, end)
    case Print(_) => next
  }

  function Blanks(depth: nat): string { if depth == 0 then "" else "  " + Blanks(depth - 1) }

  // ----- what is written -----

  /** Comments `from` to `to`, each on a line of its own before what follows. */
  function Led(from: nat, to: nat, depth: nat): seq<Piece>
    requires from <= to
  {
    if from == to then [] else Led(from, to - 1, depth) + [Space(Blanks(depth)), Note(to - 1), Space("\n")]
  }

  /** The same behind what came before. */
  function Trailed(from: nat, to: nat, depth: nat): seq<Piece>
    requires from <= to
  {
    if from == to then [] else Trailed(from, to - 1, depth) + [Space("\n"), Space(Blanks(depth)), Note(to - 1)]
  }

  function Pieces(cs: seq<FmtComment>, next: nat, op: Op): seq<Piece>
    requires next <= |cs|
  {
    match op
    case Before(_, depth) => Led(next, Target(cs, next, op), depth)
    case Trailing(_, depth) => Trailed(next, Target(cs, next, op), depth)
    case Print(text) => [Text(text)]
  }

  /** The cursor behind some requests. */
  function Cursor(cs: seq<FmtComment>, ops: seq<Op>): (n: nat)
    ensures n <= |cs|
  {
    if ops == [] then 0 else Target(cs, Cursor(cs, ops[..|ops| - 1]), ops[|ops| - 1])
  }

  /** The output for some requests. */
  function Output(cs: seq<FmtComment>, ops: seq<Op>): seq<Piece> {
    if ops == [] then []
    else Output(cs, ops[..|ops| - 1]) + Pieces(cs, Cursor(cs, ops[..|ops| - 1]), ops[|ops| - 1])
  }

  function Printed(ops: seq<Op>): seq<string> {
    if ops == [] then []
    else Printed(ops[..|ops| - 1]) + if ops[|ops| - 1].Print? then [ops[|ops| - 1].text] else []
  }

  lemma {:induction false} BlockNotes(from: nat, to: nat, depth: nat)
    requires from <= to
    ensures UpTo(from) + Notes(Led(from, to, depth)) == UpTo(to) && Texts(Led(from, to, depth)) == []
    ensures UpTo(from) + Notes(Trailed(from, to, depth)) == UpTo(to) && Texts(Trailed(from, to, depth)) == []
  {
    if from < to {
      BlockNotes(from, to - 1, depth);
      var l, t := [Space(Blanks(depth)), Note(to - 1), Space("\n")], [Space("\n"), Space(Blanks(depth)), Note(to - 1)];
      OneNote(l, to - 1);
      OneNote(t, to - 1);
      NotesJoin(Led(from, to - 1, depth), l);
      NotesJoin(Trailed(from, to - 1, depth), t);
      hide Notes, Texts;
    }
  }

  lemma OneNote(ps: seq<Piece>, k: nat)
    requires |ps| == 3 && !ps[0].Text? && !ps[1].Text? && !ps[2].Text?
    requires (ps[0].Space? && ps[1] == Note(k) && ps[2].Space?) || (ps[0].Space? && ps[1].Space? && ps[2] == Note(k))
    ensures Notes(ps) == [k] && Texts(ps) == []
  {
    assert Notes([]) == [] && Texts([]) == [];
    hide Notes, Texts;
    NotesStep(ps);
    NotesStep(ps[1..]);
    NotesStep(ps[2..]);
    assert ps[1..][1..] == ps[2..] && ps[2..][1..] == [];
  }

  /** Main theorem: whatever the requests are, the comments in the output are those before the cursor, each once
      and in order, and what is not a comment or the space around one is the printed text, in order. */
  lemma {:induction false} NothingLost(cs: seq<FmtComment>, ops: seq<Op>)
    ensures Notes(Output(cs, ops)) == UpTo(Cursor(cs, ops)) && Texts(Output(cs, ops)) == Printed(ops)
  {
    if ops != [] {
      var rest, op := ops[..|ops| - 1], ops[|ops| - 1];
      var n := Cursor(cs, rest);
      NothingLost(cs, rest);
      NotesJoin(Output(cs, rest), Pieces(cs, n, op));
      match op
      case Before(_, depth) => BlockNotes(n, Target(cs, n, op), depth);
      case Trailing(_, depth) => BlockNotes(n, Target(cs, n, op), depth);
      case Print(text) => assert Notes([Text(text)]) == [] && Texts([Text(text)]) == [text];
    }
  }

  lemma {:induction false} OutputGrows(cs: seq<FmtComment>, ops: seq<Op>, m: nat)
    requires m <= |ops|
    ensures Output(cs, ops[..m]) <= Output(cs, ops) && Cursor(cs, ops[..m]) <= Cursor(cs, ops)
    decreases |ops|
  {
    hide Pieces, Target;
    if m < |ops| {
      OutputGrows(cs, ops[..|ops| - 1], m);
      assert ops[..|ops| - 1][..m] == ops[..m];
    } else {
      assert ops[..m] == ops;
    }
  }

  /** Where a text stands: behind exactly the comments that the cursor had passed when it was printed. */
  lemma {:induction false} TextPlace(cs: seq<FmtComment>, ops: seq<Op>, m: nat)
    requires m < |ops| && ops[m].Print?
    ensures var before := Output(cs, ops[..m]);
            && before + [Text(ops[m].text)] <= Output(cs, ops)
            && Notes(before) == UpTo(Cursor(cs, ops[..m])) && Texts(before) == Printed(ops[..m])
  {
    hide Notes, Texts, UpTo, Printed;
    NothingLost(cs, ops[..m]);
    OutputGrows(cs, ops, m + 1);
    assert ops[..m + 1][..m] == ops[..m];
  }

  ghost predicate Ordered(cs: seq<FmtComment>) { forall i, j | 0 <= i < j < |cs| :: cs[i].start <= cs[j].start }

  lemma AdvancePasses(cs: seq<FmtComment>, next: nat, pos: int, k: nat)
    requires Ordered(cs) && next <= |cs| && k < |cs| && cs[k].start < pos
    ensures k < Advance(cs, next, pos)
  {
    var n := Advance(cs, next, pos);
    hide Advance;
    InOrder(cs, n, k);
  }

  lemma InOrder(cs: seq<FmtComment>, i: nat, j: nat)
    requires Ordered(cs)
    ensures i <= j < |cs| ==> cs[i].start <= cs[j].start
  {}

  /** A comment that starts before a requested position stands before every text printed after the request. */
  lemma {:induction false} CommentPlace(cs: seq<FmtComment>, ops: seq<Op>, j: nat, m: nat, k: nat)
    requires Ordered(cs) && j < m < |ops| && ops[j].Before? && ops[m].Print? && k < |cs| && cs[k].start < ops[j].pos
    ensures k in Notes(Output(cs, ops[..m]))
  {
    hide *;
    TextPlace(cs, ops, m);
    assert ops[..m][..j + 1] == ops[..j + 1];
    OutputGrows(cs, ops[..m], j + 1);
    CursorStep(cs, ops, j);
    AdvancePasses(cs, Cursor(cs, ops[..j]), ops[j].pos, k);
    UpToLists(Cursor(cs, ops[..m]));
    assert UpTo(Cursor(cs, ops[..m]))[k] == k;
  }

  lemma CursorStep(cs: seq<FmtComment>, ops: seq<Op>, j: nat)
    requires j < |ops| && ops[j].Before?
    ensures Cursor(cs, ops[..j + 1]) == Advance(cs, Cursor(cs, ops[..j]), ops[j].pos)
  {
    hide Advance;
    assert ops[..j + 1][..j] == ops[..j];
  }

  class Emitter {
    const comments: seq<FmtComment>
    var next: nat
    var out: seq<Piece>

    ghost predicate Valid()
      reads this
    {
      next <= |comments|
    }

    constructor (comments: seq<FmtComment>)
      ensures Valid() && this.comments == comments && next == 0 && out == []
    {
      this.comments := comments;
      next := 0;
      out := [];
    }

    method Put(p: Piece)
      requires Valid()
      modifies this`out
      ensures Valid() && out == old(out) + [p]
    {
      out := out + [p];
    }

    /** `fs_emit_comments_before` */
    method EmitBefore(pos: int, depth: nat)
      requires Valid()
      modifies this
      ensures Valid() && next == Advance(comments, old(next), pos) && out == old(out) + Led(old(next), next, depth)
    {
      while next < |comments| && comments[next].start < pos
        invariant Valid() && old(next) <= next && Advance(comments, next, pos) == Advance(comments, old(next), pos)
        invariant out == old(out) + Led(old(next), next, depth)
      {
        var c := next;
        next := next + 1;
        Put(Space(Blanks(depth)));
        Put(Note(c));
        Put(Space("\n"));
      }
    }

    /** `fs_emit_trailing_comments` */
    method EmitTrailing(end: int, depth: nat)
      requires Valid()
      modifies this
      ensures Valid() && next == (if end < 0 then old(next) else Advance(comments, old(next), end))
      ensures out == old(out) + Trailed(old(next), next, depth)
    {
      if end < 0 { return; }
      while next < |comments| && comments[next].start < end
        invariant Valid() && old(next) <= next && Advance(comments, next, end) == Advance(comments, old(next), end)
        invariant out == old(out) + Trailed(old(next), next, depth)
      {
        var c := next;
        next := next + 1;
        Put(Space("\n"));
        Put(Space(Blanks(depth)));
        Put(Note(c));
      }
    }

    method Do(op: Op)
      requires Valid()
      modifies this
      ensures Valid() && next == Target(comments, old(next), op) && out == old(out) + Pieces(comments, old(next), op)
    {
      hide Advance;
      match op
      case Before(pos, depth) => EmitBefore(pos, depth);
      case Trailing(end, depth) => EmitTrailing(end, depth);
      case Print(text) => Put(Text(text));
    }
  }

  /**
   A whole run of the formatter, for any requests of the printers: the cursor's last call leaves every
   comment of the source in the output, exactly once and in source order, and the rest of the output is the
   printed text.
   */
  method Format(comments: seq<FmtComment>, ops: seq<Op>) returns (out: seq<Piece>)
    requires forall k | 0 <= k < |comments| :: comments[k].start < INT_MAX
    ensures out == Output(comments, ops + [Before(INT_MAX, 0)])
    ensures |Notes(out)| == |comments| && forall k | 0 <= k < |comments| :: Notes(out)[k] == k
    ensures Texts(out) == Printed(ops)
  {
    hide Notes, Texts, UpTo, Printed, Pieces, Advance;
    var e := new Emitter(comments);
    var i := 0;
    while i < |ops|
      invariant 0 <= i <= |ops| && e.comments == comments && e.Valid()
      invariant e.next == Cursor(comments, ops[..i]) && e.out == Output(comments, ops[..i])
      modifies e
    {
      assert ops[..i + 1][..i] == ops[..i];
      e.Do(ops[i]);
      i := i + 1;
    }
    ghost var all := ops + [Before(INT_MAX, 0)];
    assert ops[..i] == ops && all[..|ops|] == ops;
    e.Do(Before(INT_MAX, 0));
    assert e.next == Cursor(comments, all) == |comments|;
    out := e.out;
    UpToLists(|comments|);
    NothingLost(comments, all);
    LastPrinted(ops);
  }

  lemma LastPrinted(ops: seq<Op>)
    ensures Printed(ops + [Before(INT_MAX, 0)]) == Printed(ops)
  {
    assert (ops + [Before(INT_MAX, 0)])[..|ops|] == ops;
  }
}
