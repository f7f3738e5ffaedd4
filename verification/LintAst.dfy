/**
 The syntax tree of `src/parser.h` and the syntactic guards of the two rewriting lint rules of
 `src/lint.c`.  A node keeps its kind, its operator, its token text and its children; byte offsets,
 lines and columns play no part in the guards.
 */
module LintAst {
  import opened Wrappers
  import opened Chars
  import Tokens

  /** `NodeKind`, numbered as the enumeration of `src/parser.h` numbers it. */
  newtype Kind = n: int | 0 <= n < 50

  const Program: Kind := 0
  const Module: Kind := 1
  const Import: Kind := 2
  const FuncDecl: Kind := 3
  const TypeDecl: Kind := 4
  const ConstDecl: Kind := 5
  const Param: Kind := 6
  const FieldDecl: Kind := 7
  const StmtList: Kind := 8
  const BindStmt: Kind := 9
  const MutBindStmt: Kind := 10
  const AssignStmt: Kind := 11
  const ReturnStmt: Kind := 12
  const IfStmt: Kind := 13
  const LoopStmt: Kind := 14
  const BreakStmt: Kind := 15
  const ArenaStmt: Kind := 16
  const MatchStmt: Kind := 17
  const ExprStmt: Kind := 18
  const BinaryExpr: Kind := 19
  const UnaryExpr: Kind := 20
  const CallExpr: Kind := 21
  const CastExpr: Kind := 22
  const PropagateExpr: Kind := 23
  const IndexExpr: Kind := 24
  const FieldExpr: Kind := 25
  const Ident: Kind := 26
  const TypeIdent: Kind := 27
  const IntLit: Kind := 28
  const FloatLit: Kind := 29
  const StrLit: Kind := 30
  const BoolLit: Kind := 31
  const ArrayLit: Kind := 32
  const StructLit: Kind := 33
  const FieldInit: Kind := 34
  const TypeExpr: Kind := 35
  const ArrayType: Kind := 36
  const FuncType: Kind := 37
  const PtrType: Kind := 38
  const MatchArm: Kind := 39
  const ReturnSpec: Kind := 40
  const ModulePath: Kind := 41
  const LoopInit: Kind := 42
  const MapType: Kind := 43
  const MapLit: Kind := 44
  const MapEntry: Kind := 45
  const FuncRef: Kind := 46
  const Closure: Kind := 47
  const ScopeStmt: Kind := 48
  const SpawnExpr: Kind := 49

  datatype Node = Node(kind: Kind, op: Tokens.TokenKind, text: string, children: seq<Node>)

  // ----- identifiers inside string interpolation -----

  function WordEnd(s: string, k: nat): (e: nat)
    requires k <= |s|
    ensures k <= e <= |s|
    decreases |s| - k
  {
    if k < |s| && IsWordChar(s[k]) then WordEnd(s, k + 1) else k
  }

  /** One `\(...)` segment from `j` on: how often `name` occurs in it, and where the scan stops. */
  function InterpSegment(s: string, name: string, j: nat, depth: nat): (r: (nat, nat))
    requires depth > 0
    ensures j <= r.1
    decreases if j < |s| then |s| - j else 0
  {
    if j >= |s| then (0, j)
    else if s[j] == '(' then InterpSegment(s, name, j + 1, depth + 1)
    else if s[j] == ')' then
      if depth == 1 then (0, j) else InterpSegment(s, name, j + 1, depth - 1)
    else if IsLetter(s[j]) || s[j] == '_' then
      var k := WordEnd(s, j + 1);
      var hit := if !(j > 0 && s[j - 1] == '.') && s[j..k] == name then 1 else 0;
      var rest := InterpSegment(s, name, k, depth);
      (hit + rest.0, rest.1)
    else InterpSegment(s, name, j + 1, depth)
  }

  function InterpCountFrom(s: string, name: string, i: nat): nat
    decreases if i < |s| then |s| - i else 0
  {
    if i + 1 >= |s| then 0
    else if s[i] == '\\' && s[i + 1] == '(' then
      var seg := InterpSegment(s, name, i + 2, 1);
      seg.0 + InterpCountFrom(s, name, seg.1 + 1)
    else if s[i] == '\\' then InterpCountFrom(s, name, i + 2)
    else InterpCountFrom(s, name, i + 1)
  }

  /** `interp_ident_count`: occurrences of `name` inside the interpolations of a string token. */
  function InterpIdentCount(s: string, name: string): nat {
    InterpCountFrom(s, name, 0)
  }

  predicate HasInterpFrom(s: string, i: nat)
    decreases if i < |s| then |s| - i else 0
  {
    i + 1 < |s| &&
    if s[i] == '\\' then s[i + 1] == '(' || HasInterpFrom(s, i + 2) else HasInterpFrom(s, i + 1)
  }

  /** `str_lit_has_interp` */
  predicate HasInterp(n: Node) {
    n.kind == StrLit && HasInterpFrom(n.text, 0)
  }

  // ----- census and guards -----

  predicate IsIdent(n: Node) {
    n.kind == Ident && n.text != ""
  }

  predicate NameIs(n: Node, name: string) {
    IsIdent(n) && n.text == name
  }

  /** `ident_used_in`: the name occurs anywhere below the node, field and binding names included. */
  predicate IdentUsedIn(n: Node, name: string) {
    || ((n.kind == Ident || n.kind == TypeIdent) && n.text == name)
    || (n.kind == StrLit && n.text != "" && InterpIdentCount(n.text, name) > 0)
    || exists i | 0 <= i < |n.children| :: IdentUsedIn(n.children[i], name)
  }

  /** The role an identifier plays at child position `idx` of a node of kind `pk`. */
  datatype Role = FieldName | Binder | Target | Reference

  function RoleAt(pk: Kind, idx: nat): Role {
    if pk == FieldExpr && idx == 1 then FieldName
    else if (pk == BindStmt || pk == MutBindStmt || pk == LoopInit || pk == Param) && idx == 0 then Binder
    else if pk == MatchArm && idx == 1 then Binder
    else if pk == AssignStmt && idx == 0 then Target
    else Reference
  }

  datatype RefCount = RefCount(astRefs: nat, interpRefs: nat, binds: nat, writes: nat) {
    function Plus(o: RefCount): RefCount {
      RefCount(astRefs + o.astRefs, interpRefs + o.interpRefs, binds + o.binds, writes + o.writes)
    }

    function Nodes(): nat { astRefs + binds + writes }
  }

  function NoRefs(): RefCount {
    RefCount(0, 0, 0, 0)
  }

  function OneRef(): RefCount {
    RefCount(1, 0, 0, 0)
  }

  lemma PlusNone(a: RefCount)
    ensures a.Plus(NoRefs()) == a && NoRefs().Plus(a) == a
  {}

  function One(role: Role): RefCount {
    match role
    case FieldName => NoRefs()
    case Binder => NoRefs().(binds := 1)
    case Target => NoRefs().(writes := 1)
    case Reference => NoRefs().(astRefs := 1)
  }

  /** The part of a path that remains below child `j`; `None` when the path leads elsewhere. */
  function Below(path: Option<seq<nat>>, j: nat): Option<seq<nat>> {
    if path.Some? && |path.value| > 0 && path.value[0] == j then Some(path.value[1..]) else None
  }

  /** `count_refs`: the census of `name` below `n`, the node at `exclude` left out. */
  function CountRefs(n: Node, pk: Kind, idx: nat, name: string, exclude: Option<seq<nat>>): RefCount
    decreases n, 1, 0
  {
    if exclude == Some([]) then NoRefs()
    else if n.kind == Ident then
      if NameIs(n, name) then One(RoleAt(pk, idx)) else NoRefs()
    else if n.kind == StrLit && n.text != "" then
      NoRefs().(interpRefs := InterpIdentCount(n.text, name))
    else CountKids(n, 0, name, exclude)
  }

  /** The census of the children of `n` from position `i` on. */
  function CountKids(n: Node, i: nat, name: string, exclude: Option<seq<nat>>): RefCount
    requires i <= |n.children|
    decreases n, 0, |n.children| - i
  {
    if i == |n.children| then NoRefs()
    else CountRefs(n.children[i], n.kind, i, name, Below(exclude, i))
         .Plus(CountKids(n, i + 1, name, exclude))
  }

  /** The occurrences of `name` below `n`, those in the expressions below string literals included. */
  function Refs(n: Node, pk: Kind, idx: nat, name: string): RefCount
    decreases n, 1, 0
  {
    if n.kind == Ident then if NameIs(n, name) then One(RoleAt(pk, idx)) else NoRefs()
    else RefKids(n, 0, name)
  }

  function RefKids(n: Node, i: nat, name: string): RefCount
    requires i <= |n.children|
    decreases n, 0, |n.children| - i
  {
    if i == |n.children| then NoRefs() else Refs(n.children[i], n.kind, i, name).Plus(RefKids(n, i + 1, name))
  }

  /** How many identifier nodes called `name` there are, field names left out. */
  function IdentNodes(n: Node, pk: Kind, idx: nat, name: string): nat {
    Refs(n, pk, idx, name).Nodes()
  }

  function KidNodes(n: Node, i: nat, name: string): nat
    requires i <= |n.children|
  {
    RefKids(n, i, name).Nodes()
  }

  lemma {:induction false} KidNodesStep(n: Node, i: nat, name: string)
    requires i < |n.children|
    ensures KidNodes(n, i, name) == IdentNodes(n.children[i], n.kind, i, name) + KidNodes(n, i + 1, name)
  {
    hide Refs;
  }

  lemma {:induction false} NodesOpen(n: Node, pk: Kind, idx: nat, name: string)
    ensures n.kind != Ident ==> IdentNodes(n, pk, idx, name) == KidNodes(n, 0, name)
    ensures KidNodes(n, |n.children|, name) == 0
  {}

  /** `is_pure_expr`: the initialisers that may be moved to their single use. */
  predicate IsPureExpr(n: Node) {
    if n.kind == IntLit || n.kind == FloatLit || n.kind == BoolLit || n.kind == Ident then true
    else if n.kind == StrLit then !HasInterp(n)
    else if n.kind == FieldExpr then
      && |n.children| == 2 && (n.children[0].kind == Ident || n.children[0].kind == FieldExpr)
      && IsPureExpr(n.children[0]) && IsIdent(n.children[1])
    else if n.kind == IndexExpr then
      && |n.children| == 2 && (n.children[0].kind == Ident || n.children[0].kind == FieldExpr)
      && IsPureExpr(n.children[0]) && IsPureExpr(n.children[1])
    else if n.kind == BinaryExpr then
      |n.children| == 2 && IsPureExpr(n.children[0]) && IsPureExpr(n.children[1])
    else if n.kind == UnaryExpr then |n.children| == 1 && IsPureExpr(n.children[0])
    else if n.kind == CastExpr then |n.children| >= 1 && IsPureExpr(n.children[0])
    else false
  }

  predicate InertLeaf(kind: Kind) {
    || kind == IntLit || kind == FloatLit || kind == StrLit || kind == BoolLit
    || kind == Ident || kind == TypeIdent || kind == TypeExpr
  }

  predicate InertStructure(kind: Kind) {
    || kind == BinaryExpr || kind == UnaryExpr || kind == ArrayLit || kind == MapLit
    || kind == MapEntry || kind == StructLit || kind == FieldInit || kind == FieldExpr
  }

  /** `expr_is_inert`: the initialisers that may be deleted with an unused name. */
  predicate ExprIsInert(n: Node) {
    InertLeaf(n.kind)
    || (InertStructure(n.kind) && forall i | 0 <= i < |n.children| :: ExprIsInert(n.children[i]))
  }

  predicate WritesName(kind: Kind) {
    kind == AssignStmt || kind == BindStmt || kind == MutBindStmt || kind == LoopInit
  }

  /** `stmt_writes_ident_of`: `stmt` binds or assigns a name that `expr` mentions. */
  predicate StmtWritesIdentOf(stmt: Node, expr: Node)
    decreases stmt
  {
    || (WritesName(stmt.kind) && |stmt.children| > 0 && IsIdent(stmt.children[0])
        && IdentUsedIn(expr, stmt.children[0].text))
    || exists i | 0 <= i < |stmt.children| :: StmtWritesIdentOf(stmt.children[i], expr)
  }

  /** Where `find_ref_ctx` finds the use, and whether it lies in an unsafe context. */
  datatype Use = Use(path: seq<nat>, unsafe: bool)

  predicate UnsafeKind(kind: Kind) {
    kind == LoopStmt || kind == Closure || kind == MatchStmt || kind == ScopeStmt || kind == SpawnExpr
  }

  /** `find_ref_ctx`: the first reference to `name`, in document order. */
  function FindRef(n: Node, pk: Kind, idx: nat, name: string, unsafe: bool): (use: Option<Use>)
    decreases n, 1, 0
  {
    if n.kind == Ident then
      if !NameIs(n, name) || (pk == FieldExpr && idx == 1) then None
      else Some(Use([], unsafe || (pk == MutBindStmt && idx == 1)))
    else FindRefKids(n, 0, name, unsafe || UnsafeKind(n.kind))
  }

  function FindRefKids(n: Node, i: nat, name: string, unsafe: bool): (use: Option<Use>)
    requires i <= |n.children|
    decreases n, 0, |n.children| - i
  {
    if i == |n.children| then None
    else
      match FindRef(n.children[i], n.kind, i, name, unsafe)
      case Some(u) => Some(Use([i] + u.path, u.unsafe))
      case None => FindRefKids(n, i + 1, name, unsafe)
  }

  // ----- rewriting -----

  /** A place in the tree; identifiers are leaves. */
  predicate ValidPath(n: Node, path: seq<nat>) {
    path == [] || (n.kind != Ident && path[0] < |n.children| && ValidPath(n.children[path[0]], path[1..]))
  }

  function At(n: Node, path: seq<nat>): Node
    requires ValidPath(n, path)
  {
    if path == [] then n else At(n.children[path[0]], path[1..])
  }

  /** `n` with the node at `path` replaced. */
  function Replace(n: Node, path: seq<nat>, sub: Node): Node
    requires ValidPath(n, path)
    decreases |path|
  {
    if path == [] then sub
    else n.(children := n.children[path[0] := Replace(n.children[path[0]], path[1..], sub)])
  }

  /** Every condition `check_single_use_let` puts on a fixable finding: the `let` is statement `i` of
      the list at `path` in the function `fn`, and its one use lies in statement `i + 1`. */
  predicate SingleUseFixable(fn: Node, path: seq<nat>, i: nat) {
    && ValidPath(fn, path)
    && var list := At(fn, path);
    && list.kind == StmtList && i + 1 < |list.children|
    && var decl := list.children[i];
    && decl.kind == BindStmt && |decl.children| >= 2 && IsIdent(decl.children[0])
    && var next := list.children[i + 1];
    && var init := decl.children[|decl.children| - 1];
    && var name := decl.children[0].text;
    && var all := CountRefs(fn, Program, 0, name, Some(path + [i]));
    && all.binds == 0 && all.writes == 0
    && all.astRefs + all.interpRefs == 1
    && !IdentUsedIn(init, name)
    && var nxt := CountRefs(next, StmtList, i + 1, name, None);
    && nxt.astRefs + nxt.interpRefs == 1
    && nxt.astRefs == 1 && IsPureExpr(init) && !StmtWritesIdentOf(next, init)
    && var use := FindRef(next, StmtList, i + 1, name, false);
    && use.Some? && !use.value.unsafe
  }

  /** In its statement list the `let` has no occurrence of its name beside it but one, strings included. */
  predicate OnlyUse(list: Node, i: nat)
    requires i < |list.children| && |list.children[i].children| > 0
  {
    var x := list.children[i].children[0].text;
    IdentNodes(list, Program, 0, x) == IdentNodes(list.children[i], StmtList, i, x) + 1
  }

  /** The list with the `let` at `i` removed and its initialiser put at the one use. */
  function InlineInList(list: Node, i: nat): Node
    requires i + 1 < |list.children| && |list.children[i].children| > 0
  {
    var decl := list.children[i];
    var init := decl.children[|decl.children| - 1];
    var next := list.children[i + 1];
    match FindRef(next, list.kind, i + 1, decl.children[0].text, false)
    case Some(use) =>
      FindRefValid(next, list.kind, i + 1, decl.children[0].text, false);
      list.(children := list.children[..i] + [Replace(next, use.path, init)] + list.children[i + 2..])
    case None => list
  }

  /** The function after the fix. */
  function Inline(fn: Node, path: seq<nat>, i: nat): Node
    requires SingleUseFixable(fn, path, i)
  {
    Replace(fn, path, InlineInList(At(fn, path), i))
  }

  lemma {:induction false} FindRefValid(n: Node, pk: Kind, idx: nat, name: string, unsafe: bool)
    ensures FindRef(n, pk, idx, name, unsafe).Some? ==>
              ValidPath(n, FindRef(n, pk, idx, name, unsafe).value.path)
    decreases n, 1, 0
  {
    if n.kind != Ident {
      FindRefKidsValid(n, 0, name, unsafe || UnsafeKind(n.kind));
    }
  }

  lemma {:induction false} FindRefKidsValid(n: Node, i: nat, name: string, unsafe: bool)
    requires n.kind != Ident && i <= |n.children|
    ensures FindRefKids(n, i, name, unsafe).Some? ==>
              ValidPath(n, FindRefKids(n, i, name, unsafe).value.path)
    decreases n, 0, |n.children| - i
  {
    if i < |n.children| {
      FindRefValid(n.children[i], n.kind, i, name, unsafe);
      match FindRef(n.children[i], n.kind, i, name, unsafe)
      case Some(u) => assert ([i] + u.path)[1..] == u.path;
      case None => FindRefKidsValid(n, i + 1, name, unsafe);
    }
  }
}
