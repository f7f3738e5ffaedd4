/**
 The operator grammar of the parser, one production for each level from `parse_or` to `parse_cast_prop`, and
 the reader and the printer against it.

 The productions name their operators and do not mention the printer's precedence table.  The reader accepts
 exactly the token sequences that the grammar derives and returns the tree of the derivation; the printer
 adds parentheses exactly where the grammar does not derive the bare operand.
 */
module ExprGrammar {
  import opened Wrappers
  import opened ExprPrinter

  datatype Level =
    | OrL | AndL | PipeL | CaretL | AmpL | CompareL | ShiftL | SumL | ProductL | UnaryL | CastL | PrimaryL

  /** Levels from the loosest to the tightest. */
  function Height(l: Level): (h: nat)
    ensures 1 <= h <= 12
  {
    match l
    case OrL => 1
    case AndL => 2
    case PipeL => 3
    case CaretL => 4
    case AmpL => 5
    case CompareL => 6
    case ShiftL => 7
    case SumL => 8
    case ProductL => 9
    case UnaryL => 10
    case CastL => 11
    case PrimaryL => 12
  }

  predicate IsComparison(op: BinOp) { op == Lt || op == Gt || op == Le || op == Ge || op == Eq || op == Ne }

  predicate Joins(e: Expr, ops: set<BinOp>) { e.Binary? && e.op in ops }

  /** The productions. */
  predicate Derives(l: Level, e: Expr)
    decreases e, 12 - Height(l)
  {
    match l
    case OrL => Derives(AndL, e) || (Joins(e, {Or}) && Derives(OrL, e.left) && Derives(AndL, e.right))
    case AndL => Derives(PipeL, e) || (Joins(e, {And}) && Derives(AndL, e.left) && Derives(PipeL, e.right))
    case PipeL => Derives(CaretL, e) || (Joins(e, {Pipe}) && Derives(PipeL, e.left) && Derives(CaretL, e.right))
    case CaretL => Derives(AmpL, e) || (Joins(e, {Caret}) && Derives(CaretL, e.left) && Derives(AmpL, e.right))
    case AmpL => Derives(CompareL, e) || (Joins(e, {Amp}) && Derives(AmpL, e.left) && Derives(CompareL, e.right))
    case CompareL =>
      || Derives(ShiftL, e)
      || (Joins(e, {Lt, Gt, Le, Ge, Eq, Ne}) && Derives(ShiftL, e.left) && Derives(ShiftL, e.right))
    case ShiftL => Derives(SumL, e) || (Joins(e, {Shl, Shr}) && Derives(ShiftL, e.left) && Derives(SumL, e.right))
    case SumL =>
      Derives(ProductL, e) || (Joins(e, {Plus, Minus}) && Derives(SumL, e.left) && Derives(ProductL, e.right))
    case ProductL =>
      || Derives(UnaryL, e)
      || (Joins(e, {Star, Slash, Percent}) && Derives(ProductL, e.left) && Derives(UnaryL, e.right))
    case UnaryL => Derives(CastL, e) || (e.Unary? && Derives(UnaryL, e.arg))
    case CastL => Derives(PrimaryL, e) || (e.Cast? && Derives(PrimaryL, e.arg))
    case PrimaryL => e.Leaf? || (e.Group? && Derives(OrL, e.arg))
  }

  /** The tokens of a derivation. */
  function Yield(e: Expr): seq<Tok> {
    match e
    case Leaf(text) => [Atom(text)]
    case Binary(op, l, r) => Yield(l) + [Sym(op)] + Yield(r)
    case Unary(op, a) => [if op == Neg then Sym(Minus) else if op == Not then Bang else Tilde] + Yield(a)
    case Cast(a, ty) => Yield(a) + [As, Ty(ty)]
    case Group(a) => [Open] + Yield(a) + [Close]
  }

  // ----- the levels of operators and trees -----

  function LevelOf(op: BinOp): Level {
    match op
    case Or => OrL
    case And => AndL
    case Pipe => PipeL
    case Caret => CaretL
    case Amp => AmpL
    case Lt | Gt | Le | Ge | Eq | Ne => CompareL
    case Shl | Shr => ShiftL
    case Plus | Minus => SumL
    case Star | Slash | Percent => ProductL
  }

  /** The tightest level of a tree. */
  function Top(e: Expr): Level {
    match e
    case Leaf(_) | Group(_) => PrimaryL
    case Binary(op, _, _) => LevelOf(op)
    case Unary(_, _) => UnaryL
    case Cast(_, _) => CastL
  }

  /** The level of the operands of a binary operator. */
  function LeftOf(op: BinOp): Level {
    if IsComparison(op) then ShiftL else LevelOf(op)
  }

  function RightOf(op: BinOp): Level { Tighter(LevelOf(op)) }

  function Tighter(l: Level): Level {
    match l
    case OrL => AndL
    case AndL => PipeL
    case PipeL => CaretL
    case CaretL => AmpL
    case AmpL => CompareL
    case CompareL => ShiftL
    case ShiftL => SumL
    case SumL => ProductL
    case ProductL => UnaryL
    case UnaryL => CastL
    case CastL => PrimaryL
    case PrimaryL => PrimaryL
  }

  /** The productions by level: a tree of its own level, or one of the next. */
  lemma Production(l: Level, e: Expr)
    ensures Derives(l, e) <==>
            || (l != PrimaryL && Derives(Tighter(l), e))
            || (Top(e) == l && match e
                               case Leaf(_) => true
                               case Binary(op, a, b) => Derives(LeftOf(op), a) && Derives(RightOf(op), b)
                               case Unary(_, a) => Derives(UnaryL, a)
                               case Cast(a, _) => Derives(PrimaryL, a)
                               case Group(a) => Derives(OrL, a))
  {
    if e.Binary? { ProductionBinary(l, e); }
  }

  lemma ProductionBinary(l: Level, e: Expr)
    requires e.Binary?
    ensures Derives(l, e) <==>
            || (l != PrimaryL && Derives(Tighter(l), e))
            || (LevelOf(e.op) == l && Derives(LeftOf(e.op), e.left) && Derives(RightOf(e.op), e.right))
  {
    match l
    case OrL => case AndL => case PipeL => case CaretL => case AmpL => case CompareL => case ShiftL =>
    case SumL => case ProductL => case UnaryL => case CastL => case PrimaryL =>
  }

  /** What a level derives, every looser level derives. */
  lemma {:induction false} Looser(l: Level, m: Level, e: Expr)
    requires Height(l) <= Height(m) && Derives(m, e)
    ensures Derives(l, e)
    decreases Height(m) - Height(l)
  {
    hide Derives;
    if Height(l) < Height(m) {
      Looser(Tighter(l), m, e);
      Production(l, e);
    }
  }

  /** Printer and parser use the same levels, in the same order. */
  lemma PrecIsHeight(op: BinOp)
    ensures Prec(op) == Height(LevelOf(op))
    ensures Prec(op) == COMPARE <==> IsComparison(op)
    ensures Height(RightOf(op)) == Prec(op) + 1
    ensures Height(LeftOf(op)) == if Prec(op) == COMPARE then Prec(op) + 1 else Prec(op)
  {}

  /** A bare operand needs no parentheses exactly when its level fits. */
  lemma FitsIff(child: Expr, op: BinOp)
    ensures !NeedsParen(child, op, false) <==> Height(LeftOf(op)) <= Height(Top(child))
    ensures !NeedsParen(child, op, true) <==> Height(RightOf(op)) <= Height(Top(child))
  {
    PrecIsHeight(op);
    if child.Binary? { PrecIsHeight(child.op); }
    hide Prec, LeftOf, RightOf, IsComparison;
    assert child.Binary? ==> Top(child) == LevelOf(child.op);
    assert !child.Binary? ==> Height(Top(child)) >= 10;
  }

  // ----- canonical trees are the derived ones -----

  /** The printer would add nothing, and every cast is read. */
  predicate Canonical(e: Expr) { Canon(e) == e && NoCastOfCast(e) }

  lemma CanonicalParts(e: Expr)
    ensures Canonical(e) <==>
            match e
            case Leaf(_) => true
            case Binary(op, l, r) =>
              && Canonical(l) && Canonical(r)
              && Height(LeftOf(op)) <= Height(Top(l)) && Height(RightOf(op)) <= Height(Top(r))
            case Unary(_, a) => Canonical(a) && Height(UnaryL) <= Height(Top(a))
            case Cast(a, _) => Canonical(a) && Top(a) == PrimaryL
            case Group(a) => Canonical(a)
  {
    match e
    case Leaf(_) =>
    case Binary(op, l, r) =>
      FitsIff(l, op);
      FitsIff(r, op);
      hide NeedsParen, LeftOf, RightOf;
      CanonTop(l);
      CanonTop(r);
    case Unary(_, a) => CanonTop(a);
    case Cast(a, _) => CanonTop(a);
    case Group(a) =>
  }

  /** A tree is never equal to a group around itself. */
  lemma CanonTop(e: Expr)
    ensures Group(Canon(e)) == e ==> Canon(e) != e
    ensures e.Binary? || e.Unary? || e.Cast? ==> Group(Canon(e)) != e
  {}

  /** A derived tree is canonical and fits its level. */
  lemma {:induction false} DerivedCanonical(l: Level, e: Expr)
    requires Derives(l, e)
    ensures Canonical(e) && Height(l) <= Height(Top(e))
    decreases e, 12 - Height(l)
  {
    hide Derives, Canonical, LeftOf, RightOf, LevelOf;
    Production(l, e);
    if l != PrimaryL && Derives(Tighter(l), e) {
      DerivedCanonical(Tighter(l), e);
    } else {
      CanonicalParts(e);
      match e
      case Leaf(_) =>
      case Binary(op, a, b) =>
        DerivedCanonical(LeftOf(op), a);
        DerivedCanonical(RightOf(op), b);
      case Unary(_, a) => DerivedCanonical(UnaryL, a);
      case Cast(a, _) => DerivedCanonical(PrimaryL, a);
      case Group(a) => DerivedCanonical(OrL, a);
    }
  }

  /** A canonical tree is derived at its level. */
  lemma {:induction false} CanonicalDerived(e: Expr)
    requires Canonical(e)
    ensures Derives(Top(e), e)
  {
    hide Derives, Canonical, LeftOf, RightOf, LevelOf;
    CanonicalParts(e);
    Production(Top(e), e);
    match e
    case Leaf(_) =>
    case Binary(op, a, b) =>
      CanonicalDerived(a);
      CanonicalDerived(b);
      Looser(LeftOf(op), Top(a), a);
      Looser(RightOf(op), Top(b), b);
    case Unary(_, a) =>
      CanonicalDerived(a);
      Looser(UnaryL, Top(a), a);
    case Cast(a, _) => CanonicalDerived(a);
    case Group(a) =>
      CanonicalDerived(a);
      Looser(OrL, Top(a), a);
  }

  /** The grammar derives exactly the canonical trees that fit. */
  lemma DerivesIff(l: Level, e: Expr)
    ensures Derives(l, e) <==> Canonical(e) && Height(l) <= Height(Top(e))
  {
    hide Derives, Canonical;
    if Derives(l, e) { DerivedCanonical(l, e); }
    if Canonical(e) && Height(l) <= Height(Top(e)) {
      CanonicalDerived(e);
      Looser(l, Top(e), e);
    }
  }

  /** The printed form of any tree is the yield of its canonical form. */
  lemma {:induction false} PrintIsYield(e: Expr)
    ensures Print(e) == Yield(Canon(e))
  {
    hide NeedsParen;
    match e
    case Leaf(_) =>
    case Binary(op, l, r) =>
      PrintIsYield(l);
      PrintIsYield(r);
      YieldGrouped(NeedsParen(l, op, false), Canon(l));
      YieldGrouped(NeedsParen(r, op, true), Canon(r));
      hide Wrap, Grouped;
    case Unary(op, a) =>
      PrintIsYield(a);
      YieldGrouped(a.Binary?, Canon(a));
    case Cast(a, ty) =>
      PrintIsYield(a);
      YieldGrouped(a.Binary? || a.Unary?, Canon(a));
    case Group(a) => PrintIsYield(a);
  }

  lemma YieldGrouped(paren: bool, e: Expr)
    ensures Yield(Grouped(paren, e)) == Wrap(paren, Yield(e))
  {}

  // ----- the reader against the grammar -----

  /** Main theorem: the reader returns a tree if and only if the grammar derives the tree with exactly these
      tokens. */
  lemma GrammarExact(toks: seq<Tok>, e: Expr)
    ensures Parse(toks) == Some(e) <==> Derives(OrL, e) && Yield(e) == toks
  {
    hide Parse, Print, Derives, NoCastOfCast, Canon, Yield;
    DerivesIff(OrL, e);
    PrintIsYield(e);
    ParsePrint(e);
    if Parse(toks).Some? { PrintParse(toks); }
    assert Height(OrL) == 1;
  }

  /** So no token sequence has two derivations. */
  lemma Unambiguous(e: Expr, f: Expr)
    requires Derives(OrL, e) && Derives(OrL, f) && Yield(e) == Yield(f)
    ensures e == f
  {
    hide *;
    GrammarExact(Yield(e), e);
    GrammarExact(Yield(e), f);
  }

  /** Two operators in a row: the tighter one takes the middle operand, the left one of equals, and two
      comparisons are not read. */
  lemma Grouping(a: string, op: BinOp, b: string, op': BinOp, c: string)
    ensures var toks := [Atom(a), Sym(op), Atom(b), Sym(op'), Atom(c)];
            var h, h' := Height(LevelOf(op)), Height(LevelOf(op'));
            && (Parse(toks) == Some(Binary(op', Binary(op, Leaf(a), Leaf(b)), Leaf(c)))
                <==> h > h' || (h == h' && !IsComparison(op)))
            && (Parse(toks) == Some(Binary(op, Leaf(a), Binary(op', Leaf(b), Leaf(c)))) <==> h < h')
            && (Parse(toks) == None <==> IsComparison(op) && IsComparison(op'))
  {
    if IsComparison(op) && IsComparison(op') { TwoComparisons(a, op, b, op', c); }
    var x, y, z := Leaf(a), Leaf(b), Leaf(c);
    var l, r := Binary(op', Binary(op, x, y), z), Binary(op, x, Binary(op', y, z));
    var toks := [Atom(a), Sym(op), Atom(b), Sym(op'), Atom(c)];
    assert Yield(x) == [Atom(a)] && Yield(y) == [Atom(b)] && Yield(z) == [Atom(c)];
    assert Yield(l.left) == [Atom(a), Sym(op), Atom(b)] && Yield(r.right) == [Atom(b), Sym(op'), Atom(c)];
    assert Yield(l) == toks && Yield(r) == toks;
    GrammarExact(toks, l);
    GrammarExact(toks, r);
    DerivesIff(OrL, l);
    DerivesIff(OrL, r);
    hide Derives, Parse, Yield, Canonical, Height;
    LeafCanonical(a);
    LeafCanonical(b);
    LeafCanonical(c);
    CanonicalParts(l);
    CanonicalParts(r);
    CanonicalParts(l.left);
    CanonicalParts(r.right);
    Heights(op);
    Heights(op');
  }

  /** The reader stops behind a comparison. */
  lemma {:induction false} ComparisonStops(p: nat, e: Expr, toks: seq<Tok>, rest: seq<Tok>)
    requires 1 <= p <= COMPARE && ParseLevel(COMPARE, toks) == Ok(e, rest)
    requires rest != [] && rest[0].Sym? && Prec(rest[0].op) == COMPARE
    ensures ParseLevel(p, toks) == Ok(e, rest)
    decreases COMPARE - p
  {
    hide Prec;
    if p < COMPARE { ComparisonStops(p + 1, e, toks, rest); }
  }

  lemma TwoComparisons(a: string, op: BinOp, b: string, op': BinOp, c: string)
    requires IsComparison(op) && IsComparison(op')
    ensures Parse([Atom(a), Sym(op), Atom(b), Sym(op'), Atom(c)]) == None
  {
    var e, rest := Binary(op, Leaf(a), Leaf(b)), [Sym(op'), Atom(c)];
    var toks := [Atom(a), Sym(op), Atom(b), Sym(op'), Atom(c)];
    PrecIsHeight(op);
    PrecIsHeight(op');
    assert Print(Leaf(a)) == [Atom(a)] && Print(Leaf(b)) == [Atom(b)];
    assert Print(e) == [Atom(a), Sym(op), Atom(b)] && Print(e) + rest == toks && Canon(e) == e;
    hide Print, Canon, Prec, ParseLevel;
    ReadBack(COMPARE, e, rest);
    ComparisonStops(1, e, toks, rest);
  }

  lemma LeafCanonical(a: string)
    ensures Canonical(Leaf(a))
  {}

  lemma Heights(op: BinOp)
    ensures 1 <= Height(LevelOf(op)) < Height(UnaryL) < Height(PrimaryL)
    ensures Height(RightOf(op)) == Height(LevelOf(op)) + 1 && Height(OrL) == 1
    ensures Height(LeftOf(op)) == if IsComparison(op) then Height(LevelOf(op)) + 1 else Height(LevelOf(op))
    ensures Height(LevelOf(op)) == 6 <==> IsComparison(op)
  {}

  // ----- the printer against the grammar -----

  /** The printer puts an operand in parentheses if and only if the grammar does not derive it bare. */
  lemma ParenthesesIff(op: BinOp, l: Expr, r: Expr)
    requires NoCastOfCast(l) && NoCastOfCast(r)
    ensures NeedsParen(l, op, false) <==> !Derives(LeftOf(op), Canon(l))
    ensures NeedsParen(r, op, true) <==> !Derives(RightOf(op), Canon(r))
  {
    FitsIff(l, op);
    FitsIff(r, op);
    CanonCanonical(l);
    CanonCanonical(r);
    DerivesIff(LeftOf(op), Canon(l));
    DerivesIff(RightOf(op), Canon(r));
    hide *;
  }

  /** What the printer writes for a tree is canonical. */
  lemma CanonCanonical(e: Expr)
    requires NoCastOfCast(e)
    ensures Canonical(Canon(e)) && Top(Canon(e)) == Top(e)
  {
    ParsePrint(e);
    PrintParse(Print(e));
    ParsePrint(Canon(e));
    hide Parse, Print, NoCastOfCast;
  }
}
