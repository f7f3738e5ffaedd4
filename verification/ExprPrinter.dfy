/**
 Precedence parentheses: `op_prec`, `needs_paren`, `fmt_expr` and the operator cases of
 `fmt_expr_inner`, read back by the operator levels of the parser, from `parse_or` down to
 `parse_cast_prop`.

 The printer repeats the grouping parentheses of the source and adds its own only where the source had
 none.  The reader notes the parentheses around a node and takes at most one `as`.  Printing what was
 read gives back its tokens; a tree that was not read may hold a cast of a cast without parentheses,
 and its printed form is not read back.
 */
module ExprPrinter {
  import opened Wrappers

  datatype BinOp =
    | Or | And | Pipe | Caret | Amp | Lt | Gt | Le | Ge | Eq | Ne | Shl | Shr | Plus | Minus | Star | Slash | Percent

  datatype UnOp = Neg | Not | BitNot

  /** Binary, unary and cast nodes over opaque operands and type names; `Group` is a layer of
      parentheses that the source had around a node. */
  datatype Expr =
    | Leaf(text: string)
    | Binary(op: BinOp, left: Expr, right: Expr)
    | Unary(uop: UnOp, arg: Expr)
    | Cast(arg: Expr, ty: string)
    | Group(arg: Expr)

  /** The tree without the parentheses of the source. */
  function Strip(e: Expr): Expr {
    match e
    case Leaf(_) => e
    case Binary(op, l, r) => Binary(op, Strip(l), Strip(r))
    case Unary(op, a) => Unary(op, Strip(a))
    case Cast(a, ty) => Cast(Strip(a), ty)
    case Group(a) => Strip(a)
  }

  function Grouped(paren: bool, e: Expr): Expr {
    if paren then Group(e) else e
  }

  /** No cast is the direct operand of a cast. */
  predicate NoCastOfCast(e: Expr) {
    match e
    case Leaf(_) => true
    case Binary(_, l, r) => NoCastOfCast(l) && NoCastOfCast(r)
    case Unary(_, a) => NoCastOfCast(a)
    case Cast(a, _) => !a.Cast? && NoCastOfCast(a)
    case Group(a) => NoCastOfCast(a)
  }

  /** A token; `-` is one token whether it is used as a binary or as a unary operator. */
  datatype Tok = Atom(text: string) | Sym(op: BinOp) | Tilde | Bang | As | Ty(name: string) | Open | Close

  /** `op_prec` */
  function Prec(op: BinOp): (p: nat)
    ensures 1 <= p <= 9
  {
    match op
    case Or => 1
    case And => 2
    case Pipe => 3
    case Caret => 4
    case Amp => 5
    case Lt | Gt | Le | Ge | Eq | Ne => 6
    case Shl | Shr => 7
    case Plus | Minus => 8
    case Star | Slash | Percent => 9
  }

  const COMPARE := 6
  const UNARY := 10

  /** `needs_paren` for an operand of a binary operator that has no parentheses in the source. */
  predicate NeedsParen(child: Expr, parent: BinOp, isRight: bool) {
    child.Binary? &&
    var pc, pp := Prec(child.op), Prec(parent);
    pc < pp || (pc == pp && (isRight || pp == COMPARE))
  }

  function UnTok(op: UnOp): Tok {
    match op
    case Neg => Sym(Minus)
    case Not => Bang
    case BitNot => Tilde
  }

  function Wrap(paren: bool, toks: seq<Tok>): seq<Tok> {
    if paren then [Open] + toks + [Close] else toks
  }

  /** The tokens `fmt_expr` emits. */
  function Print(e: Expr): (r: seq<Tok>)
    ensures r != []
  {
    match e
    case Leaf(text) => [Atom(text)]
    case Binary(op, l, r) => Wrap(NeedsParen(l, op, false), Print(l)) + [Sym(op)]
      + Wrap(NeedsParen(r, op, true), Print(r))
    case Unary(op, a) => [UnTok(op)] + Wrap(a.Binary?, Print(a))
    case Cast(a, ty) => Wrap(a.Binary? || a.Unary?, Print(a)) + [As, Ty(ty)]
    case Group(a) => [Open] + Print(a) + [Close]
  }

  /** The tree with a `Group` wherever the printer adds parentheses of its own. */
  function Canon(e: Expr): Expr {
    match e
    case Leaf(_) => e
    case Binary(op, l, r) => Binary(op, Grouped(NeedsParen(l, op, false), Canon(l)),
      Grouped(NeedsParen(r, op, true), Canon(r)))
    case Unary(op, a) => Unary(op, Grouped(a.Binary?, Canon(a)))
    case Cast(a, ty) => Cast(Grouped(a.Binary? || a.Unary?, Canon(a)), ty)
    case Group(a) => Group(Canon(a))
  }

  /** The added parentheses do not change the tree. */
  lemma {:induction false} CanonSame(e: Expr)
    ensures Strip(Canon(e)) == Strip(e)
  {
    hide NeedsParen;
    match e
    case Leaf(_) =>
    case Binary(op, l, r) => CanonSame(l); CanonSame(r);
    case Unary(op, a) => CanonSame(a);
    case Cast(a, ty) => CanonSame(a);
    case Group(a) => CanonSame(a);
  }

  // ----- the reader -----

  datatype Parsed = Fail | Ok(e: Expr, rest: seq<Tok>)

  predicate OpAt(toks: seq<Tok>, p: nat) {
    toks != [] && toks[0].Sym? && Prec(toks[0].op) == p
  }

  /** The operand and operator chain of level `p`: levels 1 to 9 are the binary operators, left
      associative except the comparisons, which do not chain; level 10 is the unary operators. */
  function ParseLevel(p: nat, toks: seq<Tok>): (r: Parsed)
    requires 1 <= p <= UNARY
    ensures r.Ok? ==> |r.rest| < |toks|
    decreases |toks|, UNARY - p, 2
  {
    if p == UNARY then ParseUnary(toks)
    else
      match ParseLevel(p + 1, toks)
      case Fail => Fail
      case Ok(e, rest) =>
        if p == COMPARE then ParseCompare(e, rest) else ParseChain(p, e, rest)
  }

  function ParseChain(p: nat, left: Expr, toks: seq<Tok>): (r: Parsed)
    requires 1 <= p < UNARY
    ensures r.Ok? ==> |r.rest| <= |toks|
    decreases |toks|, UNARY - p, 0
  {
    if !OpAt(toks, p) then Ok(left, toks)
    else
      match ParseLevel(p + 1, toks[1..])
      case Fail => Fail
      case Ok(e, rest) => ParseChain(p, Binary(toks[0].op, left, e), rest)
  }

  function ParseCompare(left: Expr, toks: seq<Tok>): (r: Parsed)
    ensures r.Ok? ==> |r.rest| <= |toks|
    decreases |toks|, UNARY - COMPARE, 0
  {
    if !OpAt(toks, COMPARE) then Ok(left, toks)
    else
      match ParseLevel(COMPARE + 1, toks[1..])
      case Fail => Fail
      case Ok(e, rest) => Ok(Binary(toks[0].op, left, e), rest)
  }

  function ParseUnary(toks: seq<Tok>): (r: Parsed)
    ensures r.Ok? ==> |r.rest| < |toks|
    decreases |toks|, 0, 1
  {
    if toks == [] then Fail
    else if toks[0] == Sym(Minus) then Apply(Neg, ParseUnary(toks[1..]))
    else if toks[0] == Bang then Apply(Not, ParseUnary(toks[1..]))
    else if toks[0] == Tilde then Apply(BitNot, ParseUnary(toks[1..]))
    else
      match ParsePrimary(toks)
      case Fail => Fail
      case Ok(e, rest) => ParseCast(e, rest)
  }

  function Apply(op: UnOp, r: Parsed): Parsed {
    match r
    case Fail => Fail
    case Ok(e, rest) => Ok(Unary(op, e), rest)
  }

  function ParsePrimary(toks: seq<Tok>): (r: Parsed)
    requires toks != []
    ensures r.Ok? ==> |r.rest| < |toks|
    decreases |toks|, 0, 0
  {
    match toks[0]
    case Atom(text) => Ok(Leaf(text), toks[1..])
    case Open =>
      (match ParseLevel(1, toks[1..])
       case Fail => Fail
       case Ok(e, rest) => if rest != [] && rest[0] == Close then Ok(Group(e), rest[1..]) else Fail)
    case _ => Fail
  }

  /** `parse_cast_prop`: `as` binds tightest, and at most one is taken. */
  function ParseCast(e: Expr, toks: seq<Tok>): (r: Parsed)
    ensures r.Ok? ==> |r.rest| <= |toks|
  {
    if |toks| >= 2 && toks[0] == As && toks[1].Ty? then Ok(Cast(e, toks[1].name), toks[2..]) else Ok(e, toks)
  }

  function Parse(toks: seq<Tok>): Option<Expr> {
    match ParseLevel(1, toks)
    case Fail => None
    case Ok(e, rest) => if rest == [] then Some(e) else None
  }

  // ----- printing then reading -----

  /** How tightly an expression binds when printed without parentheses around it. */
  function Tightness(e: Expr): nat {
    if e.Binary? then Prec(e.op) else UNARY
  }

  /** What may follow an operand read at level `p`: no operator that binds tighter, and no `as`. */
  predicate Follows(p: nat, rest: seq<Tok>) {
    rest == [] || (rest[0] != As && (rest[0].Sym? ==> Prec(rest[0].op) <= p))
  }

  /** Reading at level `p` goes on behind an operand `e` that is complete at level `p + 1`. */
  function Continue(p: nat, e: Expr, rest: seq<Tok>): Parsed
    requires 1 <= p <= UNARY
  {
    if p == UNARY then Ok(e, rest) else if p == COMPARE then ParseCompare(e, rest) else ParseChain(p, e, rest)
  }

  /** Reading at level `p` goes on behind `e`, printed without parentheses; a comparison ends its level. */
  function Resume(p: nat, e: Expr, rest: seq<Tok>): Parsed
    requires 1 <= p <= UNARY
  {
    if p == COMPARE && e.Binary? && Prec(e.op) == COMPARE then Ok(Canon(e), rest) else Continue(p, Canon(e), rest)
  }

  /** Nothing is left to do at level `p` when the rest holds no operator of that level. */
  lemma ContinueStops(p: nat, e: Expr, rest: seq<Tok>)
    requires 1 <= p <= UNARY && (p == UNARY || !OpAt(rest, p))
    ensures Continue(p, e, rest) == Ok(e, rest)
  {}

  lemma ResumeStops(p: nat, e: Expr, rest: seq<Tok>)
    requires 1 <= p <= UNARY && (p == UNARY || !OpAt(rest, p))
    ensures Continue(p, Group(Canon(e)), rest) == Ok(Group(Canon(e)), rest) && Resume(p, e, rest) == Ok(Canon(e), rest)
  {}

  /** Main lemma: reading the printed form at any level it fits, before anything that may follow,
      yields the tree and goes on behind it. */
  lemma {:induction false} ReadBack(p: nat, e: Expr, rest: seq<Tok>)
    requires NoCastOfCast(e) && 1 <= p <= UNARY && p <= Tightness(e) && Follows(p, rest)
    ensures ParseLevel(p, Print(e) + rest) == Resume(p, e, rest)
    decreases e, 1, UNARY - p
  {
    hide Prec, ParseChain, ParseCompare, Print;
    if p < Tightness(e) {
      ReadBack(p + 1, e, rest);
      ResumeStops(p + 1, e, rest);
    } else {
      match e
      case Leaf(text) => ReadLeaf(e, rest);
      case Unary(op, a) => ReadUnary(e, rest);
      case Cast(a, ty) => ReadCast(e, rest);
      case Group(a) =>
        ReadPrimary(e, rest);
        PrimaryUnary(Canon(e), Print(e) + rest, rest);
      case Binary(op, l, r) => ReadBinary(e, rest);
    }
  }

  lemma ReadLeaf(e: Expr, rest: seq<Tok>)
    requires e.Leaf?
    ensures ParsePrimary(Print(e) + rest) == Ok(e, rest)
    ensures Follows(UNARY, rest) ==> ParseUnary(Print(e) + rest) == Ok(e, rest)
  {
    assert (Print(e) + rest)[1..] == rest;
  }

  /** An operand in parentheses reads back as a primary. */
  lemma {:induction false} ReadGroup(e: Expr, rest: seq<Tok>)
    requires NoCastOfCast(e)
    ensures ParsePrimary([Open] + Print(e) + [Close] + rest) == Ok(Group(Canon(e)), rest)
    decreases e, 2, 0
  {
    var toks := [Open] + Print(e) + [Close] + rest;
    assert toks[1..] == Print(e) + ([Close] + rest);
    ReadBack(1, e, [Close] + rest);
    ResumeStops(1, e, [Close] + rest);
    assert ([Close] + rest)[1..] == rest;
  }

  /** A leaf or a group is a primary, whatever comes behind. */
  lemma {:induction false} ReadPrimary(e: Expr, rest: seq<Tok>)
    requires NoCastOfCast(e) && (e.Leaf? || e.Group?)
    ensures ParsePrimary(Print(e) + rest) == Ok(Canon(e), rest)
    decreases e, 0, 2
  {
    if e.Leaf? { ReadLeaf(e, rest); } else { ReadGroup(e.arg, rest); }
  }

  lemma PrimaryUnary(e: Expr, toks: seq<Tok>, rest: seq<Tok>)
    requires toks != [] && (toks[0] == Open || toks[0].Atom?) && ParsePrimary(toks) == Ok(e, rest)
    ensures ParseUnary(toks) == ParseCast(e, rest)
  {
    hide ParsePrimary, ParseCast;
  }

  lemma {:induction false} ReadUnary(e: Expr, rest: seq<Tok>)
    requires NoCastOfCast(e) && e.Unary? && Follows(UNARY, rest)
    ensures ParseUnary(Print(e) + rest) == Ok(Canon(e), rest)
    decreases e, 0, 0
  {
    hide Prec;
    var a := e.arg;
    var toks := Print(e) + rest;
    UnaryOpens(e, rest);
    hide ParsePrimary, Print, ParseUnary;
    if a.Binary? {
      assert Wrap(true, Print(a)) + rest == [Open] + Print(a) + [Close] + rest;
      ReadGroup(a, rest);
      PrimaryUnary(Group(Canon(a)), Wrap(true, Print(a)) + rest, rest);
    } else {
      ReadBack(UNARY, a, rest);
    }
  }

  lemma UnaryOpens(e: Expr, rest: seq<Tok>)
    requires e.Unary?
    ensures ParseUnary(Print(e) + rest) == Apply(e.uop, ParseUnary(Wrap(e.arg.Binary?, Print(e.arg)) + rest))
  {
    hide ParsePrimary, ParseCast, Wrap;
    var toks, tail := Print(e) + rest, Wrap(e.arg.Binary?, Print(e.arg)) + rest;
    assert toks == [UnTok(e.uop)] + tail;
    assert toks[1..] == tail;
  }

  /** A cast is read whatever comes behind, a second `as` included. */
  lemma {:induction false} ReadCast(e: Expr, rest: seq<Tok>)
    requires NoCastOfCast(e) && e.Cast?
    ensures ParseUnary(Print(e) + rest) == Ok(Canon(e), rest)
    decreases e, 0, 1
  {
    var a, tail := e.arg, [As, Ty(e.ty)] + rest;
    CastOpens(e, rest);
    assert tail[2..] == rest;
    if a.Binary? || a.Unary? {
      ReadGroup(a, tail);
      PrimaryUnary(Group(Canon(a)), [Open] + Print(a) + [Close] + tail, tail);
    } else {
      ReadPrimary(a, tail);
      PrimaryUnary(Canon(a), Print(a) + tail, tail);
    }
  }

  lemma CastOpens(e: Expr, rest: seq<Tok>)
    requires e.Cast?
    ensures var a, tail := e.arg, [As, Ty(e.ty)] + rest;
            Print(e) + rest == if a.Binary? || a.Unary? then [Open] + Print(a) + [Close] + tail else Print(a) + tail
  {}

  /** A parenthesised expression is complete at every level. */
  lemma {:induction false} GroupAt(p: nat, e: Expr, toks: seq<Tok>, rest: seq<Tok>)
    requires 1 <= p <= UNARY && Follows(p, rest) && toks != [] && toks[0] == Open && ParsePrimary(toks) == Ok(e, rest)
    ensures ParseLevel(p, toks) == Continue(p, e, rest)
    decreases UNARY - p
  {
    if p < UNARY {
      GroupAt(p + 1, e, toks, rest);
      ContinueStops(p + 1, e, rest);
    }
  }

  /** An operand of a binary operator, in parentheses or not. */
  lemma {:induction false} ReadOperand(p: nat, e: Expr, paren: bool, rest: seq<Tok>)
    requires NoCastOfCast(e) && 1 <= p <= UNARY && Follows(p, rest) && (paren || p <= Tightness(e))
    ensures ParseLevel(p, Wrap(paren, Print(e)) + rest) == if paren then Continue(p, Group(Canon(e)), rest)
            else Resume(p, e, rest)
    decreases e, 3, 0
  {
    if paren {
      var toks := [Open] + Print(e) + [Close] + rest;
      assert Wrap(paren, Print(e)) + rest == toks;
      ReadGroup(e, rest);
      GroupAt(p, Group(Canon(e)), toks, rest);
    } else {
      ReadBack(p, e, rest);
    }
  }

  lemma PrintBinary(e: Expr, rest: seq<Tok>)
    requires e.Binary?
    ensures Print(e) + rest ==
            Wrap(NeedsParen(e.left, e.op, false), Print(e.left)) +
            ([Sym(e.op)] + (Wrap(NeedsParen(e.right, e.op, true), Print(e.right)) + rest))
  {
    hide Wrap, NeedsParen;
  }

  lemma {:induction false} ReadBinary(e: Expr, rest: seq<Tok>)
    requires NoCastOfCast(e) && e.Binary? && Follows(Prec(e.op), rest)
    ensures ParseLevel(Prec(e.op), Print(e) + rest) == Resume(Prec(e.op), e, rest)
    decreases e, 0, 0
  {
    hide Prec, ParseChain, ParseCompare;
    var p, l, r := Prec(e.op), e.left, e.right;
    var pl, pr := NeedsParen(l, e.op, false), NeedsParen(r, e.op, true);
    var right := Wrap(pr, Print(r)) + rest;
    var tail := [Sym(e.op)] + right;
    hide Print, Wrap, ParseLevel;
    PrintBinary(e, rest);
    ReadOperand(p + 1, r, pr, rest);
    ResumeStops(p + 1, r, rest);
    if p == COMPARE {
      ReadOperand(p + 1, l, pl, tail);
      ResumeStops(p + 1, l, tail);
      CompareStep(e, Print(e) + rest, right, rest);
    } else {
      ReadOperand(p, l, pl, tail);
      ChainStep(e, right, rest);
    }
  }

  lemma ChainStep(e: Expr, right: seq<Tok>, rest: seq<Tok>)
    requires e.Binary? && Prec(e.op) != COMPARE && ParseLevel(Prec(e.op) + 1, right) == Ok(Canon(e).right, rest)
    ensures ParseChain(Prec(e.op), Canon(e).left, [Sym(e.op)] + right) == ParseChain(Prec(e.op), Canon(e), rest)
  {
    hide ParseLevel;
    assert ([Sym(e.op)] + right)[1..] == right;
  }

  lemma CompareStep(e: Expr, toks: seq<Tok>, right: seq<Tok>, rest: seq<Tok>)
    requires e.Binary? && Prec(e.op) == COMPARE && ParseLevel(COMPARE + 1, right) == Ok(Canon(e).right, rest)
    requires ParseLevel(COMPARE + 1, toks) == Ok(Canon(e).left, [Sym(e.op)] + right)
    ensures ParseLevel(COMPARE, toks) == Ok(Canon(e), rest)
  {
    assert ([Sym(e.op)] + right)[1..] == right;
  }

  // ----- a cast of a cast is not read back -----

  /** The reader gave up, or stands before an `as` that nothing above it takes. */
  predicate Halted(r: Parsed) {
    r.Ok? ==> r.rest != [] && r.rest[0] == As
  }

  lemma HaltedUp(p: nat, toks: seq<Tok>)
    requires 1 <= p < UNARY && Halted(ParseLevel(p + 1, toks))
    ensures Halted(ParseLevel(p, toks))
  {}

  lemma {:induction false} HaltedDown(p: nat, q: nat, toks: seq<Tok>)
    requires 1 <= p <= q <= UNARY && Halted(ParseLevel(q, toks))
    ensures Halted(ParseLevel(p, toks))
    decreases q - p
  {
    hide ParseLevel;
    if p < q {
      HaltedUp(q - 1, toks);
      HaltedDown(p, q - 1, toks);
    }
  }

  /** A tree with a cast of a cast halts the reader at every level, whatever comes behind. */
  lemma {:induction false} Halts(p: nat, e: Expr, rest: seq<Tok>)
    requires !NoCastOfCast(e) && 1 <= p <= Tightness(e)
    ensures Halted(ParseLevel(p, Print(e) + rest))
    decreases e, 1, 0
  {
    hide Prec, Print;
    match e
    case Unary(op, a) => HaltsUnary(e, rest); HaltedDown(p, UNARY, Print(e) + rest);
    case Cast(a, ty) => HaltsCast(e, rest); HaltedDown(p, UNARY, Print(e) + rest);
    case Group(a) => HaltsGroup(a, rest); PrintGroup(e); HaltedDown(p, UNARY, Print(e) + rest);
    case Binary(op, l, r) => HaltsBinary(e, rest); HaltedDown(p, Prec(op), Print(e) + rest);
  }

  lemma PrintGroup(e: Expr)
    requires e.Group?
    ensures Print(e) == [Open] + Print(e.arg) + [Close]
  {}

  lemma {:induction false} HaltsGroup(e: Expr, rest: seq<Tok>)
    requires !NoCastOfCast(e)
    ensures Halted(ParseUnary([Open] + Print(e) + [Close] + rest))
    decreases e, 2, 0
  {
    var toks := [Open] + Print(e) + [Close] + rest;
    assert toks[1..] == Print(e) + ([Close] + rest);
    Halts(1, e, [Close] + rest);
    hide ParseLevel, Print;
    assert ParsePrimary(toks) == Fail;
  }

  lemma {:induction false} HaltsUnary(e: Expr, rest: seq<Tok>)
    requires e.Unary? && !NoCastOfCast(e)
    ensures Halted(ParseUnary(Print(e) + rest))
    decreases e, 0, 0
  {
    var a := e.arg;
    UnaryOpens(e, rest);
    hide Print, ParseUnary;
    if a.Binary? {
      assert Wrap(true, Print(a)) + rest == [Open] + Print(a) + [Close] + rest;
      HaltsGroup(a, rest);
    } else {
      Halts(UNARY, a, rest);
    }
  }

  lemma {:induction false} HaltsCast(e: Expr, rest: seq<Tok>)
    requires e.Cast? && !NoCastOfCast(e)
    ensures Halted(ParseUnary(Print(e) + rest))
    decreases e, 0, 0
  {
    var a, tail := e.arg, [As, Ty(e.ty)] + rest;
    CastOpens(e, rest);
    hide Print, ParseUnary;
    if a.Binary? || a.Unary? { HaltsGroup(a, tail); }
    else if NoCastOfCast(a) { ReadCast(a, tail); }
    else { Halts(UNARY, a, tail); }
  }

  lemma {:induction false} HaltsOperand(p: nat, e: Expr, paren: bool, rest: seq<Tok>)
    requires !NoCastOfCast(e) && 1 <= p <= UNARY && (paren || p <= Tightness(e))
    ensures Halted(ParseLevel(p, Wrap(paren, Print(e)) + rest))
    decreases e, 3, 0
  {
    hide Print, Prec;
    if paren {
      HaltsGroup(e, rest);
      HaltedDown(p, UNARY, Wrap(paren, Print(e)) + rest);
    } else {
      Halts(p, e, rest);
    }
  }

  lemma {:induction false} HaltsBinary(e: Expr, rest: seq<Tok>)
    requires e.Binary? && !NoCastOfCast(e)
    ensures Halted(ParseLevel(Prec(e.op), Print(e) + rest))
    decreases e, 0, 0
  {
    hide Prec, ParseChain, ParseCompare;
    var p, l, r := Prec(e.op), e.left, e.right;
    var pl, pr := NeedsParen(l, e.op, false), NeedsParen(r, e.op, true);
    var right := Wrap(pr, Print(r)) + rest;
    var tail := [Sym(e.op)] + right;
    var q := if p == COMPARE then p + 1 else p;
    hide Print, Wrap, ParseLevel;
    PrintBinary(e, rest);
    if !NoCastOfCast(l) {
      HaltsOperand(q, l, pl, tail);
      HaltedDown(p, q, Print(e) + rest);
    } else {
      HaltsOperand(p + 1, r, pr, rest);
      ReadOperand(q, l, pl, tail);
      if p == COMPARE {
        ResumeStops(p + 1, l, tail);
        CompareHalts(e, Print(e) + rest, right);
      } else {
        ChainHalts(e, right);
      }
    }
  }

  lemma ChainHalts(e: Expr, right: seq<Tok>)
    requires e.Binary? && Prec(e.op) != COMPARE && Halted(ParseLevel(Prec(e.op) + 1, right))
    ensures Halted(ParseChain(Prec(e.op), Canon(e).left, [Sym(e.op)] + right))
  {
    hide ParseLevel;
    assert ([Sym(e.op)] + right)[1..] == right;
  }

  lemma CompareHalts(e: Expr, toks: seq<Tok>, right: seq<Tok>)
    requires e.Binary? && Prec(e.op) == COMPARE && Halted(ParseLevel(COMPARE + 1, right))
    requires ParseLevel(COMPARE + 1, toks) == Ok(Canon(e).left, [Sym(e.op)] + right)
    ensures Halted(ParseLevel(COMPARE, toks))
  {
    assert ([Sym(e.op)] + right)[1..] == right;
  }

  /** Printing then reading: the tokens of a tree are read back, with the printer's own parentheses
      noted, if and only if no cast is the direct operand of a cast; otherwise nothing is read. */
  lemma ParsePrint(e: Expr)
    ensures Parse(Print(e)) == Some(Canon(e)) <==> NoCastOfCast(e)
    ensures Strip(Canon(e)) == Strip(e)
    ensures !NoCastOfCast(e) ==> Parse(Print(e)) == None
  {
    assert Print(e) + [] == Print(e);
    CanonSame(e);
    if NoCastOfCast(e) {
      ReadBack(1, e, []);
      ResumeStops(1, e, []);
    } else {
      Halts(1, e, []);
    }
  }

  /** A cast of a cast without parentheses is not read back; with parentheses it is. */
  lemma CastOfCast(x: string, a: string, b: string)
    ensures Print(Cast(Cast(Leaf(x), a), b)) == [Atom(x), As, Ty(a), As, Ty(b)]
    ensures Parse([Atom(x), As, Ty(a), As, Ty(b)]) == None
    ensures Parse(Print(Cast(Group(Cast(Leaf(x), a)), b))) == Some(Cast(Group(Cast(Leaf(x), a)), b))
  {
    var inner := Cast(Leaf(x), a);
    assert Print(inner) == [Atom(x)] + [As, Ty(a)] by { assert Print(Leaf(x)) == [Atom(x)]; }
    assert Print(Cast(inner, b)) == Print(inner) + [As, Ty(b)];
    assert Canon(inner) == inner by { assert Canon(Leaf(x)) == Leaf(x); }
    assert Canon(Cast(Group(inner), b)) == Cast(Group(inner), b);
    assert NoCastOfCast(inner) by { assert NoCastOfCast(Leaf(x)); }
    hide Print, Parse, Canon;
    ParsePrint(Cast(inner, b));
    ParsePrint(Cast(Group(inner), b));
  }

  // ----- reading then printing -----

  /** What a level reads is printed as it was written, and fits that level. */
  ghost predicate Printed(p: nat, r: Parsed, toks: seq<Tok>) {
    r.Ok? ==> Print(r.e) + r.rest == toks && p <= Tightness(r.e) && NoCastOfCast(r.e)
  }

  lemma {:induction false} LevelPrinted(p: nat, toks: seq<Tok>)
    requires 1 <= p <= UNARY
    ensures Printed(p, ParseLevel(p, toks), toks)
    decreases |toks|, UNARY - p, 2
  {
    hide Print, Prec, NoCastOfCast, ParseChain, ParseCompare, ParseUnary;
    if p == UNARY { UnaryPrinted(toks); }
    else {
      LevelPrinted(p + 1, toks);
      match ParseLevel(p + 1, toks)
      case Fail =>
      case Ok(e, rest) => if p == COMPARE { ComparePrinted(e, rest); } else { ChainPrinted(p, e, rest); }
    }
  }

  lemma {:induction false} ChainPrinted(p: nat, left: Expr, toks: seq<Tok>)
    requires 1 <= p < UNARY && p != COMPARE && p <= Tightness(left) && NoCastOfCast(left)
    ensures Printed(p, ParseChain(p, left, toks), Print(left) + toks)
    decreases |toks|, UNARY - p, 0
  {
    if OpAt(toks, p) {
      LevelPrinted(p + 1, toks[1..]);
      match ParseLevel(p + 1, toks[1..])
      case Fail =>
      case Ok(e, rest) =>
        JoinPrinted(toks[0].op, left, e, toks, rest);
        ChainPrinted(p, Binary(toks[0].op, left, e), rest);
    }
  }

  lemma {:induction false} ComparePrinted(left: Expr, toks: seq<Tok>)
    requires COMPARE < Tightness(left) && NoCastOfCast(left)
    ensures Printed(COMPARE, ParseCompare(left, toks), Print(left) + toks)
    decreases |toks|, UNARY - COMPARE, 0
  {
    if OpAt(toks, COMPARE) {
      LevelPrinted(COMPARE + 1, toks[1..]);
      match ParseLevel(COMPARE + 1, toks[1..])
      case Fail =>
      case Ok(e, rest) => JoinPrinted(toks[0].op, left, e, toks, rest);
    }
  }

  lemma JoinPrinted(op: BinOp, left: Expr, right: Expr, toks: seq<Tok>, rest: seq<Tok>)
    requires toks != [] && toks[0] == Sym(op) && toks[1..] == Print(right) + rest
    requires Prec(op) < Tightness(right) && Prec(op) <= Tightness(left)
             && (Prec(op) == COMPARE ==> Prec(op) < Tightness(left))
    ensures Print(Binary(op, left, right)) + rest == Print(left) + toks
  {
    var e := Binary(op, left, right);
    assert !NeedsParen(left, op, false) && !NeedsParen(right, op, true);
    hide Prec;
    PrintBinary(e, rest);
    assert toks == [Sym(op)] + (Print(right) + rest);
  }

  lemma {:induction false} UnaryPrinted(toks: seq<Tok>)
    ensures Printed(UNARY, ParseUnary(toks), toks)
    decreases |toks|, 0, 1
  {
    if toks == [] {
    } else if toks[0] == Sym(Minus) { PrefixPrinted(Neg, toks); }
    else if toks[0] == Bang { PrefixPrinted(Not, toks); }
    else if toks[0] == Tilde { PrefixPrinted(BitNot, toks); }
    else {
      PrimaryPrinted(toks);
      match ParsePrimary(toks)
      case Fail =>
      case Ok(e, rest) => CastPrinted(e, rest);
    }
  }

  lemma {:induction false} PrefixPrinted(op: UnOp, toks: seq<Tok>)
    requires toks != [] && toks[0] == UnTok(op)
    ensures Printed(UNARY, Apply(op, ParseUnary(toks[1..])), toks)
    decreases |toks|, 0, 0
  {
    UnaryPrinted(toks[1..]);
    hide ParseUnary, Prec;
    match ParseUnary(toks[1..])
    case Fail =>
    case Ok(e, rest) =>
      assert !e.Binary?;
      assert Print(Unary(op, e)) == [UnTok(op)] + Print(e);
      hide Print;
      assert ([UnTok(op)] + Print(e)) + rest == [UnTok(op)] + (Print(e) + rest) == toks;
  }

  lemma CastPrinted(e: Expr, toks: seq<Tok>)
    requires NoCastOfCast(e) && (e.Leaf? || e.Group?)
    ensures Printed(UNARY, ParseCast(e, toks), Print(e) + toks)
  {
    if |toks| >= 2 && toks[0] == As && toks[1].Ty? {
      CastOpens(Cast(e, toks[1].name), toks[2..]);
      hide Print;
      assert toks == [As, Ty(toks[1].name)] + toks[2..];
    }
  }

  lemma {:induction false} PrimaryPrinted(toks: seq<Tok>)
    requires toks != []
    ensures var r := ParsePrimary(toks); Printed(UNARY, r, toks) && (r.Ok? ==> r.e.Leaf? || r.e.Group?)
    decreases |toks|, 0, 0
  {
    if toks[0].Atom? {
      assert Print(Leaf(toks[0].text)) == [toks[0]];
    } else if toks[0] == Open {
      LevelPrinted(1, toks[1..]);
      hide Prec, ParseLevel;
      match ParseLevel(1, toks[1..])
      case Fail =>
      case Ok(e, rest) => if rest != [] && rest[0] == Close { GroupPrinted(e, toks, rest); }
    }
  }

  lemma GroupPrinted(e: Expr, toks: seq<Tok>, rest: seq<Tok>)
    requires toks != [] && toks[0] == Open && toks[1..] == Print(e) + rest && rest != [] && rest[0] == Close
    ensures Print(Group(e)) + rest[1..] == toks
  {
    hide Print;
    PrintGroup(Group(e));
    Closed(Print(e), toks, rest);
  }

  lemma Closed(inner: seq<Tok>, toks: seq<Tok>, rest: seq<Tok>)
    requires toks != [] && toks[0] == Open && toks[1..] == inner + rest && rest != [] && rest[0] == Close
    ensures [Open] + inner + [Close] + rest[1..] == toks
  {
    assert toks == [Open] + toks[1..];
    assert rest == [Close] + rest[1..];
  }

  /** Main theorem.  On what was read from tokens the printer gives back those very tokens, and it adds
      no parentheses of its own: printing undoes reading, for every token sequence that is read. */
  lemma PrintParse(toks: seq<Tok>)
    requires Parse(toks).Some?
    ensures var e := Parse(toks).value; Print(e) == toks && NoCastOfCast(e) && Canon(e) == e
  {
    LevelPrinted(1, toks);
    var e := Parse(toks).value;
    assert Print(e) + [] == Print(e);
    hide Print, ParseLevel;
    ParsePrint(e);
  }

  // ----- the emitter -----

  lemma Wrapped(before: seq<Tok>, toks: seq<Tok>)
    ensures before + [Open] + toks + [Close] == before + Wrap(true, toks)
  {}

  /** The output buffer. */
  class Out {
    var toks: seq<Tok>

    constructor ()
      ensures toks == []
    {
      toks := [];
    }

    method Put(t: Tok)
      modifies this
      ensures toks == old(toks) + [t]
    {
      toks := toks + [t];
    }

    /** An operand, between parentheses when asked for. */
    method FmtOperand(e: Expr, paren: bool)
      modifies this
      ensures toks == old(toks) + Wrap(paren, Print(e))
      decreases e, 1
    {
      hide Print;
      ghost var before := toks;
      if paren { Put(Open); }
      FmtExpr(e);
      if paren { Put(Close); }
      Wrapped(before, Print(e));
    }

    /** `fmt_expr` with the operator cases of `fmt_expr_inner`. */
    method FmtExpr(e: Expr)
      modifies this
      ensures toks == old(toks) + Print(e)
      decreases e, 0
    {
      hide Wrap, NeedsParen, Prec;
      match e
      case Leaf(text) => Put(Atom(text));
      case Binary(op, l, r) =>
        FmtOperand(l, NeedsParen(l, op, false));
        Put(Sym(op));
        FmtOperand(r, NeedsParen(r, op, true));
      case Unary(op, a) =>
        Put(UnTok(op));
        FmtOperand(a, a.Binary?);
      case Cast(a, ty) =>
        FmtOperand(a, a.Binary? || a.Unary?);
        Put(As);
        Put(Ty(ty));
      case Group(a) =>
        Put(Open);
        FmtExpr(a);
        Put(Close);
    }
  }
}
