/**
 The guards of the two `let` fixes, described by what a tree looks like and not by how the guards search it.

 The initialisers that may be moved are the trees of a small grammar, and those that may be deleted are built
 from two lists of kinds.  A `let` is offered for inlining whenever its initialiser is of the grammar and its
 name has one other place in the function, in the next statement and in a safe context.
 */
module LintGuards {
  import Tokens
  import opened LintAst

  // ----- interpolation -----

  /** How many backslashes stand directly before position `k`, none of them before position `i`. */
  function Slashes(s: string, i: nat, k: nat): nat
    requires k <= |s|
  {
    if i < k && s[k - 1] == '\\' then 1 + Slashes(s, i, k - 1) else 0
  }

  /** A parenthesis behind an odd number of backslashes. */
  predicate InterpAt(s: string, i: nat, k: nat) { i < k < |s| && s[k] == '(' && Slashes(s, i, k) % 2 == 1 }

  ghost predicate Interpolated(s: string, i: nat) { exists k: nat :: InterpAt(s, i, k) }

  lemma {:induction false} SlashesSkip(s: string, i: nat, j: nat, k: nat)
    requires i <= j <= k <= |s| && (j == i || s[j - 1] != '\\')
    ensures Slashes(s, j, k) == Slashes(s, i, k)
    decreases k
  {
    if j < k && s[k - 1] == '\\' { SlashesSkip(s, i, j, k - 1); }
  }

  /** An escape of two characters changes no parity behind it. */
  lemma {:induction false} SlashesPair(s: string, i: nat, k: nat)
    requires i + 2 <= k <= |s| && s[i] == '\\'
    ensures Slashes(s, i, k) % 2 == Slashes(s, i + 2, k) % 2
    decreases k
  {
    if k == i + 2 {
      assert s[i + 1] == '\\' ==> Slashes(s, i, i + 1) == 1 + Slashes(s, i, i);
    } else if s[k - 1] == '\\' {
      SlashesPair(s, i, k - 1);
    }
  }

  /** A string is interpolated if and only if some parenthesis stands behind an odd number of backslashes. */
  lemma {:induction false} InterpIff(s: string, i: nat)
    requires i <= |s|
    ensures HasInterpFrom(s, i) <==> Interpolated(s, i)
    decreases |s| - i
  {
    hide HasInterpFrom, Interpolated;
    if i + 1 >= |s| {
      InterpShort(s, i);
    } else if s[i] != '\\' {
      InterpIff(s, i + 1);
      InterpPlain(s, i);
    } else if s[i + 1] == '(' {
      InterpHere(s, i);
    } else {
      InterpIff(s, i + 2);
      InterpEscape(s, i);
    }
  }

  lemma InterpShort(s: string, i: nat)
    requires i <= |s| <= i + 1
    ensures !HasInterpFrom(s, i) && !Interpolated(s, i)
  {}

  lemma InterpHere(s: string, i: nat)
    requires i + 1 < |s| && s[i] == '\\' && s[i + 1] == '('
    ensures HasInterpFrom(s, i) && Interpolated(s, i)
  {
    assert Slashes(s, i, i + 1) == 1 + Slashes(s, i, i);
    assert InterpAt(s, i, i + 1);
  }

  lemma InterpPlain(s: string, i: nat)
    requires i + 1 < |s| && s[i] != '\\'
    ensures HasInterpFrom(s, i) == HasInterpFrom(s, i + 1)
    ensures Interpolated(s, i) == Interpolated(s, i + 1)
  {
    hide HasInterpFrom;
    assert HasInterpFrom(s, i) == HasInterpFrom(s, i + 1) by { InterpPlainStep(s, i); }
    var j := i + 1;
    forall k: nat ensures InterpAt(s, i, k) <==> InterpAt(s, j, k) {
      if i + 1 <= k <= |s| { SlashesSkip(s, i, i + 1, k); }
    }
  }

  lemma InterpPlainStep(s: string, i: nat)
    requires i + 1 < |s| && s[i] != '\\'
    ensures HasInterpFrom(s, i) == HasInterpFrom(s, i + 1)
  {}

  lemma InterpEscape(s: string, i: nat)
    requires i + 1 < |s| && s[i] == '\\' && s[i + 1] != '('
    ensures HasInterpFrom(s, i) == HasInterpFrom(s, i + 2)
    ensures Interpolated(s, i) == Interpolated(s, i + 2)
  {
    var j := i + 2;
    forall k: nat ensures InterpAt(s, i, k) <==> InterpAt(s, j, k) {
      if i + 2 <= k <= |s| { SlashesPair(s, i, k); }
    }
  }

  // ----- initialisers that may be moved -----

  /** Literals, names, strings without interpolation, field and index chains on names, operators and casts. */
  datatype Pure =
    | Literal(kind: Kind, text: string)
    | Variable(name: string)
    | Quoted(text: string)
    | Field(base: Pure, field: string)
    | Index(base: Pure, index: Pure)
    | Binary(op: Tokens.TokenKind, left: Pure, right: Pure)
    | Unary(op: Tokens.TokenKind, arg: Pure)
    | Cast(arg: Pure)

  /** The node is the tree that the parser builds for `p`; the types of a cast hang behind its operand. */
  ghost predicate Stands(n: Node, p: Pure)
    decreases p
  {
    match p
    case Literal(kind, text) =>
      (kind == IntLit || kind == FloatLit || kind == BoolLit) && n.kind == kind && n.text == text
    case Variable(name) => n.kind == Ident && n.text == name
    case Quoted(text) => n.kind == StrLit && n.text == text && !Interpolated(text, 0)
    case Field(base, field) =>
      && n.kind == FieldExpr && |n.children| == 2 && (base.Variable? || base.Field?) && Stands(n.children[0], base)
      && n.children[1].kind == Ident && n.children[1].text == field && field != ""
    case Index(base, index) =>
      && n.kind == IndexExpr && |n.children| == 2 && (base.Variable? || base.Field?) && Stands(n.children[0], base)
      && Stands(n.children[1], index)
    case Binary(op, left, right) =>
      && n.kind == BinaryExpr && |n.children| == 2 && n.op == op
      && Stands(n.children[0], left) && Stands(n.children[1], right)
    case Unary(op, arg) => n.kind == UnaryExpr && |n.children| == 1 && n.op == op && Stands(n.children[0], arg)
    case Cast(arg) => n.kind == CastExpr && |n.children| >= 1 && Stands(n.children[0], arg)
  }

  /** Every tree of the grammar passes the guard. */
  lemma {:induction false} StandsPure(n: Node, p: Pure)
    requires Stands(n, p)
    ensures IsPureExpr(n)
    decreases p
  {
    hide HasInterpFrom;
    match p
    case Literal(_, _) =>
    case Variable(_) =>
    case Quoted(text) => InterpIff(text, 0);
    case Field(base, _) => StandsPure(n.children[0], base);
    case Index(base, index) => StandsPure(n.children[0], base); StandsPure(n.children[1], index);
    case Binary(_, left, right) => StandsPure(n.children[0], left); StandsPure(n.children[1], right);
    case Unary(_, arg) => StandsPure(n.children[0], arg);
    case Cast(arg) => StandsPure(n.children[0], arg);
  }

  /** Whatever passes the guard is a tree of the grammar. */
  lemma {:induction false} PureStands(n: Node) returns (p: Pure)
    requires IsPureExpr(n)
    ensures Stands(n, p)
    decreases n
  {
    hide HasInterpFrom;
    if n.kind == Ident {
      p := Variable(n.text);
    } else if n.kind == StrLit {
      InterpIff(n.text, 0);
      p := Quoted(n.text);
    } else if n.kind == FieldExpr {
      var base := PureStands(n.children[0]);
      p := Field(base, n.children[1].text);
    } else if n.kind == IndexExpr {
      var base := PureStands(n.children[0]);
      var index := PureStands(n.children[1]);
      p := Index(base, index);
    } else if n.kind == BinaryExpr {
      var left := PureStands(n.children[0]);
      var right := PureStands(n.children[1]);
      p := Binary(n.op, left, right);
    } else if n.kind == UnaryExpr {
      var arg := PureStands(n.children[0]);
      p := Unary(n.op, arg);
    } else if n.kind == CastExpr {
      var arg := PureStands(n.children[0]);
      p := Cast(arg);
    } else {
      p := Literal(n.kind, n.text);
    }
  }

  /** Main theorem on the allowlist: an initialiser may be moved if and only if it is a tree of the grammar. */
  lemma PureIff(n: Node)
    ensures IsPureExpr(n) <==> exists p :: Stands(n, p)
  {
    hide IsPureExpr, Stands;
    if IsPureExpr(n) { var p := PureStands(n); }
    if p :| Stands(n, p) { StandsPure(n, p); }
  }

  // ----- initialisers that may be deleted -----

  predicate LeafKind(kind: Kind) {
    kind in {IntLit, FloatLit, StrLit, BoolLit, Ident, TypeIdent, TypeExpr}
  }

  predicate NestKind(kind: Kind) {
    kind in {BinaryExpr, UnaryExpr, ArrayLit, MapLit, MapEntry, StructLit, FieldInit, FieldExpr}
  }

  /** `path` leads down from `n`. */
  predicate Reaches(n: Node, path: seq<nat>) {
    path == [] || (path[0] < |n.children| && Reaches(n.children[path[0]], path[1..]))
  }

  function Spot(n: Node, path: seq<nat>): Node
    requires Reaches(n, path)
  {
    if path == [] then n else Spot(n.children[path[0]], path[1..])
  }

  /** `path` leads down from `n` through operators and literals of composite type only. */
  predicate Nested(n: Node, path: seq<nat>) {
    path == [] || (NestKind(n.kind) && path[0] < |n.children| && Nested(n.children[path[0]], path[1..]))
  }

  lemma {:induction false} NestedReaches(n: Node, path: seq<nat>)
    requires Nested(n, path)
    ensures Reaches(n, path)
    decreases |path|
  {
    if path != [] { NestedReaches(n.children[path[0]], path[1..]); }
  }

  ghost predicate AllInert(n: Node) {
    forall path | Nested(n, path) :: Reaches(n, path) && (LeafKind(Spot(n, path).kind) || NestKind(Spot(n, path).kind))
  }

  /** An initialiser may be deleted if and only if every node of it that is reached through operators and
      composite literals is one of these or a leaf. */
  lemma {:induction false} InertIff(n: Node)
    ensures ExprIsInert(n) <==> AllInert(n)
  {
    InertOpens(n);
    AllInertOpens(n);
    hide ExprIsInert, AllInert;
    if NestKind(n.kind) {
      forall i | 0 <= i < |n.children| ensures ExprIsInert(n.children[i]) <==> AllInert(n.children[i]) {
        InertIff(n.children[i]);
      }
    }
  }

  lemma {:induction false} InertOpens(n: Node)
    ensures ExprIsInert(n) <==>
            LeafKind(n.kind) || (NestKind(n.kind) && forall i | 0 <= i < |n.children| :: ExprIsInert(n.children[i]))
  {}

  lemma {:induction false} AllInertOpens(n: Node)
    ensures AllInert(n) <==>
            LeafKind(n.kind) || (NestKind(n.kind) && forall i | 0 <= i < |n.children| :: AllInert(n.children[i]))
  {
    hide LeafKind, NestKind;
    Apart(n.kind);
    if AllInert(n) {
      assert Nested(n, []);
      if NestKind(n.kind) {
        forall i | 0 <= i < |n.children| ensures AllInert(n.children[i]) { AllInertBelow(n, i); }
      }
    }
    if LeafKind(n.kind) || (NestKind(n.kind) && forall i | 0 <= i < |n.children| :: AllInert(n.children[i])) {
      forall path | Nested(n, path)
        ensures Reaches(n, path) && (LeafKind(Spot(n, path).kind) || NestKind(Spot(n, path).kind))
      {
        if path != [] { InertAt(n, path); }
      }
    }
  }

  lemma Apart(kind: Kind)
    ensures !(LeafKind(kind) && NestKind(kind))
  {}

  lemma {:induction false} AllInertBelow(n: Node, i: nat)
    requires AllInert(n) && NestKind(n.kind) && i < |n.children|
    ensures AllInert(n.children[i])
  {
    hide LeafKind, NestKind;
    var child := n.children[i];
    forall path | Nested(child, path)
      ensures Reaches(child, path) && (LeafKind(Spot(child, path).kind) || NestKind(Spot(child, path).kind))
    {
      assert ([i] + path)[1..] == path;
      assert Nested(n, [i] + path);
    }
  }

  lemma {:induction false} InertAt(n: Node, path: seq<nat>)
    requires path != [] && Nested(n, path) && AllInert(n.children[path[0]])
    ensures Reaches(n, path) && (LeafKind(Spot(n, path).kind) || NestKind(Spot(n, path).kind))
  {
    hide LeafKind, NestKind;
    assert Nested(n.children[path[0]], path[1..]);
  }
}
