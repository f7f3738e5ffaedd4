/**
 When the single-use-`let` fix is offered, in terms of the places of a name in the tree.

 The census, the searches and the counts of the rule do not occur in the description: a `let` is offered
 whenever its initialiser is of the grammar, the only other place of its name is in the next statement and
 safe, and the next statement writes no name that the initialiser mentions.
 */
module LintOffered {
  import opened Wrappers
  import Tokens
  import opened LintAst
  import opened LintGuards

  // ----- places of a name -----

  /** `q` leads from `n`, child `idx` of a node of kind `pk`, to an identifier `x` that is no field name. */
  predicate Occurs(n: Node, pk: Kind, idx: nat, q: seq<nat>, x: string) {
    if q == [] then n.kind == Ident && n.text == x && x != "" && !(pk == FieldExpr && idx == 1)
    else n.kind != Ident && q[0] < |n.children| && Occurs(n.children[q[0]], n.kind, q[0], q[1..], x)
  }

  /** `q` does not lead into the node at `exclude`. */
  predicate Outside(q: seq<nat>, exclude: Option<seq<nat>>) { exclude.Some? ==> !(exclude.value <= q) }

  predicate QuotesAt(n: Node, q: seq<nat>, x: string) {
    Reaches(n, q) && Spot(n, q).kind == StrLit && InterpIdentCount(Spot(n, q).text, x) > 0
  }

  /** No place of the name, and no interpolation that mentions it, outside the excluded node. */
  ghost predicate Silent(n: Node, pk: Kind, idx: nat, x: string, exclude: Option<seq<nat>>) {
    && (forall q | Occurs(n, pk, idx, q, x) :: !Outside(q, exclude))
    && (forall q | QuotesAt(n, q, x) :: !Outside(q, exclude))
  }

  /** `q` is the only place of the name outside the excluded node, and no interpolation mentions it there. */
  ghost predicate Lone(n: Node, pk: Kind, idx: nat, x: string, exclude: Option<seq<nat>>, q: seq<nat>) {
    && Occurs(n, pk, idx, q, x) && Outside(q, exclude)
    && (forall r | Occurs(n, pk, idx, r, x) :: Outside(r, exclude) ==> r == q)
    && (forall r | QuotesAt(n, r, x) :: !Outside(r, exclude))
  }

  /** A place where a name is bound or assigned. */
  predicate BindingPlace(pk: Kind, idx: nat) {
    || (idx == 0 && pk in {BindStmt, MutBindStmt, LoopInit, Param, AssignStmt})
    || (idx == 1 && pk == MatchArm)
  }

  /** No string literal stands above the place, and the name is read there. */
  predicate Read(n: Node, pk: Kind, idx: nat, q: seq<nat>)
    decreases |q|
  {
    if q == [] then !BindingPlace(pk, idx)
    else !(n.kind == StrLit && n.text != "") && q[0] < |n.children| && Read(n.children[q[0]], n.kind, q[0], q[1..])
  }

  /** No construct above the place evaluates it again, later or under other bindings, and it is not what a
      mutable binding is made from. */
  predicate Safe(n: Node, pk: Kind, idx: nat, q: seq<nat>)
    decreases |q|
  {
    if q == [] then !(pk == MutBindStmt && idx == 1)
    else
      && n.kind !in {LoopStmt, Closure, MatchStmt, ScopeStmt, SpawnExpr}
      && q[0] < |n.children| && Safe(n.children[q[0]], n.kind, q[0], q[1..])
  }

  // ----- one level down -----

  lemma OccursDown(n: Node, pk: Kind, idx: nat, x: string, j: nat, q: seq<nat>)
    requires n.kind != Ident && j < |n.children|
    ensures Occurs(n, pk, idx, [j] + q, x) == Occurs(n.children[j], n.kind, j, q, x)
  {
    assert ([j] + q)[1..] == q;
  }

  lemma QuotesDown(n: Node, x: string, j: nat, q: seq<nat>)
    requires j < |n.children|
    ensures QuotesAt(n, [j] + q, x) == QuotesAt(n.children[j], q, x)
  {
    assert ([j] + q)[1..] == q;
  }

  lemma OutsideDown(exclude: Option<seq<nat>>, j: nat, q: seq<nat>)
    requires exclude != Some([])
    ensures Outside([j] + q, exclude) == Outside(q, Below(exclude, j))
  {
    if exclude.Some? {
      var e := exclude.value;
      if e[0] == j {
        assert e == [j] + e[1..];
        assert e <= [j] + q <==> e[1..] <= q by { PrefixDown(j, e[1..], q); }
      }
    }
  }

  lemma PrefixDown(j: nat, e: seq<nat>, q: seq<nat>)
    ensures [j] + e <= [j] + q <==> e <= q
  {
    if e <= q { assert [j] + q == [j] + e + q[|e|..]; }
    if [j] + e <= [j] + q {
      assert |e| <= |q|;
      forall k | 0 <= k < |e| ensures e[k] == q[k] { assert ([j] + e)[k + 1] == ([j] + q)[k + 1]; }
    }
  }

  lemma {:induction false} SilentDown(n: Node, pk: Kind, idx: nat, x: string, exclude: Option<seq<nat>>, j: nat)
    requires Silent(n, pk, idx, x, exclude) && n.kind != Ident && exclude != Some([]) && j < |n.children|
    ensures Silent(n.children[j], n.kind, j, x, Below(exclude, j))
  {
    hide Occurs, QuotesAt, Outside, Below;
    forall q | Occurs(n.children[j], n.kind, j, q, x) ensures !Outside(q, Below(exclude, j)) {
      OccursDown(n, pk, idx, x, j, q);
      OutsideDown(exclude, j, q);
    }
    forall q | QuotesAt(n.children[j], q, x) ensures !Outside(q, Below(exclude, j)) {
      QuotesDown(n, x, j, q);
      OutsideDown(exclude, j, q);
    }
  }

  lemma {:induction false} LoneDown(
    n: Node, pk: Kind, idx: nat, x: string, exclude: Option<seq<nat>>, q: seq<nat>, j: nat)
    requires Lone(n, pk, idx, x, exclude, q) && q != [] && exclude != Some([]) && j < |n.children|
    ensures n.kind != Ident && q[0] < |n.children|
    ensures j == q[0] ==> Lone(n.children[j], n.kind, j, x, Below(exclude, j), q[1..])
    ensures j != q[0] ==> Silent(n.children[j], n.kind, j, x, Below(exclude, j))
  {
    assert n.kind != Ident && q[0] < |n.children|;
    assert q == [q[0]] + q[1..];
    hide Occurs, QuotesAt, Outside, Below;
    var child := n.children[j];
    forall r | QuotesAt(child, r, x) ensures !Outside(r, Below(exclude, j)) {
      QuotesDown(n, x, j, r);
      OutsideDown(exclude, j, r);
    }
    forall r | Occurs(child, n.kind, j, r, x) ensures Outside(r, Below(exclude, j)) ==> [j] + r == q {
      OccursDown(n, pk, idx, x, j, r);
      OutsideDown(exclude, j, r);
    }
    if j == q[0] {
      OccursDown(n, pk, idx, x, j, q[1..]);
      OutsideDown(exclude, j, q[1..]);
      forall r | Occurs(child, n.kind, j, r, x) ensures Outside(r, Below(exclude, j)) ==> r == q[1..] {
        assert ([j] + r)[1..] == r;
      }
    } else {
      forall r | Occurs(child, n.kind, j, r, x) ensures !Outside(r, Below(exclude, j)) {
        assert ([j] + r)[0] == j;
      }
    }
  }

  // ----- the census -----

  lemma {:induction false} CensusNone(n: Node, pk: Kind, idx: nat, x: string, exclude: Option<seq<nat>>)
    requires Silent(n, pk, idx, x, exclude)
    ensures CountRefs(n, pk, idx, x, exclude) == NoRefs()
    decreases n, 1, 0
  {
    if exclude != Some([]) {
      assert Outside([], exclude);
      if n.kind == Ident {
        NoneHere(n, pk, idx, x, exclude);
      } else if n.kind == StrLit && n.text != "" {
        assert !QuotesAt(n, [], x);
      } else {
        CensusKidsNone(n, pk, idx, x, exclude, 0);
      }
    }
  }

  lemma {:induction false} NoneHere(n: Node, pk: Kind, idx: nat, x: string, exclude: Option<seq<nat>>)
    requires Silent(n, pk, idx, x, exclude) && n.kind == Ident && Outside([], exclude)
    ensures NameIs(n, x) ==> One(RoleAt(pk, idx)) == NoRefs()
  {
    assert !Occurs(n, pk, idx, [], x);
  }

  lemma {:induction false} CensusKidsNone(n: Node, pk: Kind, idx: nat, x: string, exclude: Option<seq<nat>>, i: nat)
    requires Silent(n, pk, idx, x, exclude) && n.kind != Ident && exclude != Some([]) && i <= |n.children|
    ensures CountKids(n, i, x, exclude) == NoRefs()
    decreases n, 0, |n.children| - i
  {
    hide Silent, CountRefs;
    if i < |n.children| {
      SilentDown(n, pk, idx, x, exclude, i);
      CensusNone(n.children[i], n.kind, i, x, Below(exclude, i));
      CensusKidsNone(n, pk, idx, x, exclude, i + 1);
    }
  }

  lemma {:induction false} CensusOne(n: Node, pk: Kind, idx: nat, x: string, exclude: Option<seq<nat>>, q: seq<nat>)
    requires Lone(n, pk, idx, x, exclude, q) && Read(n, pk, idx, q)
    ensures CountRefs(n, pk, idx, x, exclude) == OneRef()
    decreases n, 1, 0
  {
    assert exclude != Some([]);
    if q != [] { CensusKidsOne(n, pk, idx, x, exclude, q, 0); }
  }

  lemma {:induction false} CensusKidsOne(
    n: Node, pk: Kind, idx: nat, x: string, exclude: Option<seq<nat>>, q: seq<nat>, i: nat)
    requires Lone(n, pk, idx, x, exclude, q) && Read(n, pk, idx, q) && q != [] && exclude != Some([])
    requires i <= |n.children|
    ensures CountKids(n, i, x, exclude) == if i <= q[0] then OneRef() else NoRefs()
    decreases n, 0, |n.children| - i
  {
    hide *;
    ReadDown(n, pk, idx, q);
    KidsEnd(n, x, exclude);
    if i < |n.children| {
      KidsStep(n, i, x, exclude);
      LoneDown(n, pk, idx, x, exclude, q, i);
      CensusKidsOne(n, pk, idx, x, exclude, q, i + 1);
      if i == q[0] {
        CensusOne(n.children[i], n.kind, i, x, Below(exclude, i), q[1..]);
        PlusNone(OneRef());
      } else {
        CensusNone(n.children[i], n.kind, i, x, Below(exclude, i));
        PlusNone(CountKids(n, i + 1, x, exclude));
      }
    }
  }

  lemma {:induction false} KidsStep(n: Node, i: nat, x: string, exclude: Option<seq<nat>>)
    requires i < |n.children|
    ensures CountKids(n, i, x, exclude) ==
            CountRefs(n.children[i], n.kind, i, x, Below(exclude, i)).Plus(CountKids(n, i + 1, x, exclude))
  {
    hide CountRefs;
  }

  lemma {:induction false} KidsEnd(n: Node, x: string, exclude: Option<seq<nat>>)
    ensures CountKids(n, |n.children|, x, exclude) == NoRefs()
  {}

  lemma ReadDown(n: Node, pk: Kind, idx: nat, q: seq<nat>)
    requires Read(n, pk, idx, q) && q != []
    ensures q[0] < |n.children| && Read(n.children[q[0]], n.kind, q[0], q[1..])
  {
  }

  // ----- the search -----

  lemma {:induction false} FindNone(n: Node, pk: Kind, idx: nat, x: string, unsafe: bool)
    requires Silent(n, pk, idx, x, None)
    ensures FindRef(n, pk, idx, x, unsafe) == None
    decreases n, 1, 0
  {
    if n.kind == Ident { assert !Occurs(n, pk, idx, [], x); }
    else { FindKidsNone(n, pk, idx, x, unsafe || UnsafeKind(n.kind), 0); }
  }

  lemma {:induction false} FindKidsNone(n: Node, pk: Kind, idx: nat, x: string, unsafe: bool, i: nat)
    requires Silent(n, pk, idx, x, None) && n.kind != Ident && i <= |n.children|
    ensures FindRefKids(n, i, x, unsafe) == None
    decreases n, 0, |n.children| - i
  {
    hide Silent, FindRef;
    if i < |n.children| {
      SilentDown(n, pk, idx, x, None, i);
      FindNone(n.children[i], n.kind, i, x, unsafe);
      FindKidsNone(n, pk, idx, x, unsafe, i + 1);
    }
  }

  lemma {:induction false} FindOne(n: Node, pk: Kind, idx: nat, x: string, q: seq<nat>)
    requires Lone(n, pk, idx, x, None, q) && Safe(n, pk, idx, q)
    ensures FindRef(n, pk, idx, x, false) == Some(Use(q, false))
    decreases n, 1, 0
  {
    if q != [] { FindKidsOne(n, pk, idx, x, q, 0); }
  }

  lemma {:induction false} FindKidsOne(n: Node, pk: Kind, idx: nat, x: string, q: seq<nat>, i: nat)
    requires Lone(n, pk, idx, x, None, q) && Safe(n, pk, idx, q) && q != [] && i <= q[0]
    ensures FindRefKids(n, i, x, false) == Some(Use(q, false))
    decreases n, 0, |n.children| - i
  {
    assert q[0] < |n.children| && q == [q[0]] + q[1..];
    hide Lone, FindRef, Silent;
    LoneDown(n, pk, idx, x, None, q, i);
    if i == q[0] {
      FindOne(n.children[i], n.kind, i, x, q[1..]);
    } else {
      FindNone(n.children[i], n.kind, i, x, false);
      FindKidsOne(n, pk, idx, x, q, i + 1);
    }
  }

  // ----- all nodes of the name -----

  lemma {:induction false} NodesNone(n: Node, pk: Kind, idx: nat, x: string)
    requires Silent(n, pk, idx, x, None)
    ensures IdentNodes(n, pk, idx, x) == 0
    decreases n, 1, 0
  {
    if n.kind == Ident {
      assert !Occurs(n, pk, idx, [], x);
    } else {
      NodesOpen(n, pk, idx, x);
      NodesKidsNone(n, pk, idx, x, 0);
    }
  }

  lemma {:induction false} NodesKidsNone(n: Node, pk: Kind, idx: nat, x: string, i: nat)
    requires Silent(n, pk, idx, x, None) && n.kind != Ident && i <= |n.children|
    ensures KidNodes(n, i, x) == 0
    decreases n, 0, |n.children| - i
  {
    hide Silent, IdentNodes, KidNodes;
    if i < |n.children| {
      SilentDown(n, pk, idx, x, None, i);
      NodesNone(n.children[i], n.kind, i, x);
      NodesKidsNone(n, pk, idx, x, i + 1);
      KidNodesStep(n, i, x);
    } else {
      NodesOpen(n, pk, idx, x);
    }
  }

  lemma {:induction false} NodesOne(n: Node, pk: Kind, idx: nat, x: string, q: seq<nat>)
    requires Lone(n, pk, idx, x, None, q)
    ensures IdentNodes(n, pk, idx, x) == 1
    decreases n, 1, 0
  {
    if q == [] {
      NodesHere(n, pk, idx, x);
    } else {
      OccursBelow(n, pk, idx, q, x);
      hide *;
      NodesOpen(n, pk, idx, x);
      NodesKidsOne(n, pk, idx, x, q, 0);
    }
  }

  lemma {:induction false} NodesHere(n: Node, pk: Kind, idx: nat, x: string)
    requires Occurs(n, pk, idx, [], x)
    ensures IdentNodes(n, pk, idx, x) == 1
  {}

  lemma {:induction false} NodesKidsOne(n: Node, pk: Kind, idx: nat, x: string, q: seq<nat>, i: nat)
    requires Lone(n, pk, idx, x, None, q) && q != [] && i <= |n.children|
    ensures KidNodes(n, i, x) == if i <= q[0] then 1 else 0
    decreases n, 0, |n.children| - i
  {
    hide Silent, IdentNodes, KidNodes;
    OccursBelow(n, pk, idx, q, x);
    if i < |n.children| {
      LoneDown(n, pk, idx, x, None, q, i);
      hide Lone;
      if i == q[0] {
        NodesOne(n.children[i], n.kind, i, x, q[1..]);
      } else {
        NodesNone(n.children[i], n.kind, i, x);
      }
      NodesKidsOne(n, pk, idx, x, q, i + 1);
      KidNodesStep(n, i, x);
    } else {
      NodesOpen(n, pk, idx, x);
    }
  }

  lemma OccursBelow(n: Node, pk: Kind, idx: nat, q: seq<nat>, x: string)
    requires Occurs(n, pk, idx, q, x) && q != []
    ensures q[0] < |n.children| && n.kind != Ident
  {}

  // ----- mentions and writes -----

  predicate MentionsAt(n: Node, q: seq<nat>, x: string) {
    Reaches(n, q) && ((Spot(n, q).kind in {Ident, TypeIdent} && Spot(n, q).text == x) || QuotesAt(n, q, x))
  }

  /** Nothing below the node mentions the name, field names and types included. */
  ghost predicate Unmentioned(n: Node, x: string) { forall q :: !MentionsAt(n, q, x) }

  lemma {:induction false} UnmentionedUnused(n: Node, x: string)
    requires Unmentioned(n, x)
    ensures !IdentUsedIn(n, x)
  {
    assert !MentionsAt(n, [], x) && Spot(n, []) == n;
    forall i | 0 <= i < |n.children| ensures !IdentUsedIn(n.children[i], x) {
      MentionsDown(n, x, i);
      UnmentionedUnused(n.children[i], x);
    }
  }

  lemma {:induction false} MentionsDown(n: Node, x: string, i: nat)
    requires Unmentioned(n, x) && i < |n.children|
    ensures Unmentioned(n.children[i], x)
  {
    forall q ensures !MentionsAt(n.children[i], q, x) {
      assert ([i] + q)[1..] == q;
      assert !MentionsAt(n, [i] + q, x);
    }
  }

  /** The node at `q` binds or assigns `y`. */
  predicate WritesAt(n: Node, q: seq<nat>, y: string) {
    && Reaches(n, q) && Spot(n, q).kind in {AssignStmt, BindStmt, MutBindStmt, LoopInit}
    && |Spot(n, q).children| > 0 && Spot(n, q).children[0].kind == Ident && Spot(n, q).children[0].text == y && y != ""
  }

  /** The statement writes no name that the expression mentions. */
  ghost predicate Spares(stmt: Node, expr: Node) { forall q, y | WritesAt(stmt, q, y) :: Unmentioned(expr, y) }

  lemma {:induction false} SparesUnwritten(stmt: Node, expr: Node)
    requires Spares(stmt, expr)
    ensures !StmtWritesIdentOf(stmt, expr)
    decreases stmt
  {
    if WritesName(stmt.kind) && |stmt.children| > 0 && IsIdent(stmt.children[0]) {
      assert WritesAt(stmt, [], stmt.children[0].text);
      UnmentionedUnused(expr, stmt.children[0].text);
    }
    hide IdentUsedIn;
    forall i | 0 <= i < |stmt.children| ensures !StmtWritesIdentOf(stmt.children[i], expr) {
      SparesDown(stmt, expr, i);
      SparesUnwritten(stmt.children[i], expr);
    }
  }

  lemma {:induction false} SparesDown(stmt: Node, expr: Node, i: nat)
    requires Spares(stmt, expr) && i < |stmt.children|
    ensures Spares(stmt.children[i], expr)
  {
    hide Unmentioned;
    forall q, y | WritesAt(stmt.children[i], q, y) ensures Unmentioned(expr, y) {
      assert ([i] + q)[1..] == q;
      assert WritesAt(stmt, [i] + q, y);
    }
  }

  // ----- the offer -----

  /** Statement `i` of the list at `path` binds a name to a tree of the grammar; the name has one other place in
      the function, at `q` in the next statement, where it is read in a safe context; the next statement writes
      no name that the initialiser mentions. */
  ghost predicate Offer(fn: Node, path: seq<nat>, i: nat, q: seq<nat>) {
    && ValidPath(fn, path)
    && var list := At(fn, path);
    && list.kind == StmtList && i + 1 < |list.children|
    && var decl, next := list.children[i], list.children[i + 1];
    && decl.kind == BindStmt && |decl.children| >= 2 && decl.children[0].kind == Ident && decl.children[0].text != ""
    && var x, init := decl.children[0].text, decl.children[|decl.children| - 1];
    && (exists p :: Stands(init, p)) && Unmentioned(init, x) && Spares(next, init)
    && Lone(fn, Program, 0, x, Some(path + [i]), path + [i + 1] + q)
    && Read(fn, Program, 0, path + [i + 1] + q) && Safe(next, StmtList, i + 1, q)
  }

  /** What holds of a place in the function holds of it in the subtree that holds it. */
  lemma {:induction false} LoneAt(n: Node, pk: Kind, idx: nat, x: string, e: seq<nat>, path: seq<nat>, q: seq<nat>)
    requires ValidPath(n, path) && Lone(n, pk, idx, x, Some(path + e), path + q) && Read(n, pk, idx, path + q)
    requires e != [] && q != [] && At(n, path).kind != Ident
    ensures Lone(At(n, path), At(n, path).kind, 0, x, Some(e), q) && Read(At(n, path), At(n, path).kind, 0, q)
    decreases |path|
  {
    hide Silent;
    if path == [] {
      assert path + e == e && path + q == q;
      Reparented(n, pk, idx, n.kind, 0, x, Some(e), q);
    } else {
      var j := path[0];
      assert (path + q)[0] == j && (path + q)[1..] == path[1..] + q;
      assert (path + e)[0] == j && (path + e)[1..] == path[1..] + e;
      LoneDown(n, pk, idx, x, Some(path + e), path + q, j);
      ReadDown(n, pk, idx, path + q);
      hide Lone, Read;
      assert Below(Some(path + e), j) == Some(path[1..] + e);
      LoneAt(n.children[j], n.kind, j, x, e, path[1..], q);
    }
  }

  /** Above a place that is not the node itself, its parent does not matter. */
  lemma {:induction false} Reparented(
    n: Node, pk: Kind, idx: nat, pk': Kind, idx': nat, x: string, exclude: Option<seq<nat>>, q: seq<nat>)
    requires Lone(n, pk, idx, x, exclude, q) && Read(n, pk, idx, q) && q != []
    ensures Lone(n, pk', idx', x, exclude, q) && Read(n, pk', idx', q)
  {
    OccursBelow(n, pk, idx, q, x);
    forall r ensures Occurs(n, pk', idx', r, x) == Occurs(n, pk, idx, r, x) {}
  }

  /** Main theorem: every offer passes the guards, the search ends at that place, and no other place is left. */
  lemma OfferFixable(fn: Node, path: seq<nat>, i: nat, q: seq<nat>)
    requires Offer(fn, path, i, q)
    ensures SingleUseFixable(fn, path, i) && OnlyUse(At(fn, path), i)
    ensures var list := At(fn, path);
            var x := list.children[i].children[0].text;
            FindRef(list.children[i + 1], StmtList, i + 1, x, false) == Some(Use(q, false))
  {
    var list := At(fn, path);
    var decl, next := list.children[i], list.children[i + 1];
    var x, init := decl.children[0].text, decl.children[|decl.children| - 1];
    hide Lone, Silent, CountRefs, FindRef, IdentUsedIn, StmtWritesIdentOf, IsPureExpr, Stands, Read, Safe, OnlyUse;
    CensusOne(fn, Program, 0, x, Some(path + [i]), path + [i + 1] + q);
    UnmentionedUnused(init, x);
    SparesUnwritten(next, init);
    var p :| Stands(init, p);
    StandsPure(init, p);
    NextLone(fn, path, i, q);
    CensusOne(next, StmtList, i + 1, x, None, q);
    FindOne(next, StmtList, i + 1, x, q);
    ListOnly(fn, path, i, q);
  }

  lemma {:induction false} NextLone(fn: Node, path: seq<nat>, i: nat, q: seq<nat>)
    requires Offer(fn, path, i, q)
    ensures var list := At(fn, path);
            var x := list.children[i].children[0].text;
            && Lone(list, StmtList, 0, x, Some([i]), [i + 1] + q)
            && Lone(list.children[i + 1], StmtList, i + 1, x, None, q) && Read(list.children[i + 1], StmtList, i + 1, q)
  {
    var list := At(fn, path);
    var x := list.children[i].children[0].text;
    hide Lone, Silent, Safe, Spares, Unmentioned, Stands, Read;
    assert path + ([i + 1] + q) == path + [i + 1] + q;
    LoneAt(fn, Program, 0, x, [i], path, [i + 1] + q);
    LoneDown(list, StmtList, 0, x, Some([i]), [i + 1] + q, i + 1);
    ReadDown(list, StmtList, 0, [i + 1] + q);
    assert ([i + 1] + q)[1..] == q && Below(Some([i]), i + 1) == None;
  }

  lemma {:induction false} ListOnly(fn: Node, path: seq<nat>, i: nat, q: seq<nat>)
    requires Offer(fn, path, i, q)
    ensures OnlyUse(At(fn, path), i)
  {
    var list := At(fn, path);
    var x := list.children[i].children[0].text;
    NextLone(fn, path, i, q);
    hide Offer, Lone, Silent, IdentNodes, KidNodes;
    NodesOpen(list, Program, 0, x);
    ListNodes(list, i, x, q, 0);
  }

  lemma {:induction false} ListNodes(list: Node, i: nat, x: string, q: seq<nat>, j: nat)
    requires list.kind == StmtList && i + 1 < |list.children| && j <= |list.children|
    requires Lone(list, StmtList, 0, x, Some([i]), [i + 1] + q)
    ensures KidNodes(list, j, x) ==
            (if j <= i then IdentNodes(list.children[i], StmtList, i, x) else 0) + (if j <= i + 1 then 1 else 0)
    decreases |list.children| - j
  {
    hide Lone, Silent, IdentNodes, KidNodes;
    if j < |list.children| {
      ListNodes(list, i, x, q, j + 1);
      KidNodesStep(list, j, x);
      LoneDown(list, StmtList, 0, x, Some([i]), [i + 1] + q, j);
      assert j != i ==> Below(Some([i]), j) == None;
      assert ([i + 1] + q)[1..] == q;
      if j == i + 1 {
        NodesOne(list.children[j], StmtList, j, x, q);
      } else if j != i {
        NodesNone(list.children[j], StmtList, j, x);
      }
    } else {
      NodesOpen(list, Program, 0, x);
    }
  }

  // ----- the shortest programs -----

  /** `f(){let x=init; <x}` */
  function LetReturn(x: string, init: Node): Node {
    Node(FuncDecl, Tokens.Eof, "", [Node(StmtList, Tokens.Eof, "", [
      Node(BindStmt, Tokens.Eof, "", [Node(Ident, Tokens.Eof, x, []), init]),
      Node(ReturnStmt, Tokens.Eof, "", [Node(Ident, Tokens.Eof, x, [])])])])
  }

  /** Every initialiser of the grammar that does not mention the name is offered for inlining there. */
  lemma {:induction false} ReturnOffered(x: string, init: Node, p: Pure)
    requires x != "" && Stands(init, p) && Unmentioned(init, x)
    ensures SingleUseFixable(LetReturn(x, init), [0], 0)
  {
    var fn := LetReturn(x, init);
    var list := fn.children[0];
    var next := list.children[1];
    hide Unmentioned, Stands;
    assert At(fn, [0]) == list by { assert At(list, []) == list; }
    ReturnSpares(x, init);
    ReturnLone(x, init);
    ReturnRead(x, init);
    assert Safe(next, StmtList, 1, [0]) by { assert Safe(next.children[0], ReturnStmt, 0, []); }
    assert [0] + [0 + 1] + [0] == [0, 1, 0];
    OfferFixable(fn, [0], 0, [0]);
  }

  lemma ReturnSpares(x: string, init: Node)
    ensures Spares(LetReturn(x, init).children[0].children[1], init)
  {
    var next := LetReturn(x, init).children[0].children[1];
    forall q, y ensures !WritesAt(next, q, y) {
      if Reaches(next, q) && q != [] { assert Spot(next, q).kind == Ident by { LeafSpot(next.children[0], q[1..]); } }
    }
  }

  lemma LeafSpot(n: Node, q: seq<nat>)
    requires n.children == [] && Reaches(n, q)
    ensures q == [] && Spot(n, q) == n
  {}

  lemma ReturnRead(x: string, init: Node)
    ensures Read(LetReturn(x, init), Program, 0, [0, 1, 0])
  {
    var fn := LetReturn(x, init);
    var list := fn.children[0];
    var next := list.children[1];
    assert Read(next.children[0], ReturnStmt, 0, []);
    assert [0][1..] == [] && Read(next, StmtList, 1, [0]);
    assert [1, 0][1..] == [0] && Read(list, FuncDecl, 0, [1, 0]);
    assert [0, 1, 0][1..] == [1, 0];
  }

  lemma {:induction false} ReturnLone(x: string, init: Node)
    requires x != ""
    ensures Lone(LetReturn(x, init), Program, 0, x, Some([0] + [0]), [0, 1, 0])
  {
    var fn := LetReturn(x, init);
    var list := fn.children[0];
    var next := list.children[1];
    assert Occurs(next.children[0], ReturnStmt, 0, [], x);
    assert [0][1..] == [] && Occurs(next, StmtList, 1, [0], x);
    assert [1, 0][1..] == [0] && Occurs(list, FuncDecl, 0, [1, 0], x);
    assert [0, 1, 0][1..] == [1, 0] && Occurs(fn, Program, 0, [0, 1, 0], x);
    assert [0] + [0] == [0, 0];
    forall r | Occurs(fn, Program, 0, r, x) ensures Outside(r, Some([0, 0])) ==> r == [0, 1, 0] {
      ReturnPlaces(x, init, r);
    }
    forall r | QuotesAt(fn, r, x) ensures !Outside(r, Some([0, 0])) { ReturnQuotes(x, init, r); }
  }

  lemma {:induction false} ReturnPlaces(x: string, init: Node, r: seq<nat>)
    requires Occurs(LetReturn(x, init), Program, 0, r, x)
    ensures [0, 0] <= r || r == [0, 1, 0]
  {
    var list := LetReturn(x, init).children[0];
    assert Occurs(list, FuncDecl, 0, r[1..], x);
    var j := r[1..][0];
    assert Occurs(list.children[j], StmtList, j, r[1..][1..], x);
    assert r == [0, j] + r[2..] && r[1..][1..] == r[2..];
    if j == 1 { assert Occurs(list.children[1].children[0], ReturnStmt, 0, r[2..][1..], x); }
  }

  /** The string is the node itself, or lies below one of its children. */
  lemma QuotesSplit(n: Node, r: seq<nat>, x: string)
    requires QuotesAt(n, r, x) && n.kind != StrLit
    ensures r != [] && r[0] < |n.children| && QuotesAt(n.children[r[0]], r[1..], x)
  {
    if r != [] { assert r == [r[0]] + r[1..]; }
  }

  lemma {:induction false} ReturnQuotes(x: string, init: Node, r: seq<nat>)
    requires QuotesAt(LetReturn(x, init), r, x)
    ensures [0, 0] <= r
  {
    hide QuotesAt;
    var fn := LetReturn(x, init);
    var list := fn.children[0];
    QuotesSplit(fn, r, x);
    QuotesSplit(list, r[1..], x);
    var j := r[1..][0];
    assert r == [0, j] + r[2..] && r[1..][1..] == r[2..];
    if j == 1 {
      QuotesSplit(list.children[1], r[2..], x);
      QuotesSplit(list.children[1].children[0], r[2..][1..], x);
    }
  }
}
