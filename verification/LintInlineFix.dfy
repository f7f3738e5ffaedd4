/**
 The single-use-let fix at its place in a function: the function-level theorem.

 Outside the rewritten list both functions run the same code on the same locals; inside, the
 simulation of `LintInline` carries the extra slot until the list ends and drops it.
 */
module LintInlineFix {
  import opened Wrappers
  import Tokens
  import opened LintAst
  import opened LintSemantics
  import opened LintFrame
  import opened LintInline
  import opened LintContext

  // ----- the use found by `find_ref_ctx` is the one reference -----

  lemma {:induction false} SubstNone(n: Node, pk: Kind, idx: nat, x: string, init: Node)
    requires Refs(n, pk, idx, x).astRefs == 0
    ensures Subst(n, pk, idx, x, init) == n && SafeRefs(n, pk, idx, x)
    decreases n
  {
    if HasKids(n) {
      forall j | 0 <= j < |n.children| ensures Subst(n.children[j], n.kind, j, x, init) == n.children[j] {
        KidCount(n, 0, j, x);
        SubstNone(n.children[j], n.kind, j, x, init);
      }
      assert Subst(n, pk, idx, x, init).children == n.children;
    }
  }

  /** The child in which the search succeeds. */
  lemma {:induction false} FoundChild(n: Node, i: nat, x: string, unsafe: bool) returns (g: nat)
    requires i <= |n.children| && FindRefKids(n, i, x, unsafe).Some?
    ensures i <= g < |n.children| && FindRef(n.children[g], n.kind, g, x, unsafe).Some?
    ensures var u := FindRef(n.children[g], n.kind, g, x, unsafe).value;
            FindRefKids(n, i, x, unsafe) == Some(Use([g] + u.path, u.unsafe))
    decreases |n.children| - i
  {
    hide FindRef;
    if FindRef(n.children[i], n.kind, i, x, unsafe).Some? { g := i; } else { g := FoundChild(n, i + 1, x, unsafe); }
  }

  lemma {:induction false} FindRefOpens(n: Node, pk: Kind, idx: nat, x: string, unsafe: bool)
    requires n.kind != Ident
    ensures FindRef(n, pk, idx, x, unsafe) == FindRefKids(n, 0, x, unsafe || UnsafeKind(n.kind))
  {}

  lemma {:induction false} FoundHere(n: Node, pk: Kind, idx: nat, x: string, unsafe: bool)
    requires n.kind == Ident && FindRef(n, pk, idx, x, unsafe).Some?
    ensures FindRef(n, pk, idx, x, unsafe).value.path == [] && IdentNodes(n, pk, idx, x) == 1
  {
    assert NameIs(n, x) && RoleAt(pk, idx) != FieldName;
    assert Refs(n, pk, idx, x) == One(RoleAt(pk, idx));
    hide Refs, FindRef;
    assert One(RoleAt(pk, idx)).Nodes() == 1;
  }

  /** A child and what comes behind it are counted apart. */
  lemma {:induction false} KidTotal(n: Node, i: nat, j: nat, x: string)
    requires i <= j < |n.children|
    ensures KidNodes(n, i, x) >= IdentNodes(n.children[j], n.kind, j, x) + KidNodes(n, j + 1, x)
    decreases j - i
  {
    hide IdentNodes, KidNodes;
    KidNodesStep(n, i, x);
    if i < j { KidTotal(n, i + 1, j, x); }
  }

  /** What the search finds is there. */
  lemma {:induction false} FoundIsCounted(n: Node, pk: Kind, idx: nat, x: string, unsafe: bool)
    requires FindRef(n, pk, idx, x, unsafe).Some?
    ensures IdentNodes(n, pk, idx, x) > 0
    decreases n
  {
    hide FindRef, Refs, RefKids, IdentNodes, KidNodes;
    if n.kind == Ident {
      FoundHere(n, pk, idx, x, unsafe);
    } else {
      var unsafe' := unsafe || UnsafeKind(n.kind);
      FindRefOpens(n, pk, idx, x, unsafe);
      var g := FoundChild(n, 0, x, unsafe');
      FoundIsCounted(n.children[g], n.kind, g, x, unsafe');
      KidTotal(n, 0, g, x);
      NodesOpen(n, pk, idx, x);
    }
  }

  /** A child with a reference, and no reference in any other. */
  lemma {:induction false} OneHolder(n: Node, i: nat, x: string) returns (f: nat)
    requires i <= |n.children| && RefKids(n, i, x).astRefs == 1
    ensures i <= f < |n.children| && Refs(n.children[f], n.kind, f, x).astRefs == 1
    ensures forall j | i <= j < |n.children| && j != f :: Refs(n.children[j], n.kind, j, x).astRefs == 0
    decreases |n.children| - i
  {
    hide Refs;
    if Refs(n.children[i], n.kind, i, x).astRefs == 1 {
      f := i;
      forall j | i < j < |n.children|
        ensures Refs(n.children[j], n.kind, j, x).astRefs == 0
      {
        KidCount(n, i + 1, j, x);
      }
    } else {
      f := OneHolder(n, i + 1, x);
    }
  }

  /** With one reference and no other occurrence, replacing the node that `find_ref_ctx` finds is
      substituting the name, and a safe find means a safe context. */
  lemma {:induction false} FindIsSubst(n: Node, pk: Kind, idx: nat, x: string, unsafe: bool, init: Node)
    requires Clean(n, pk, idx, x) && Refs(n, pk, idx, x).astRefs == 1
    requires FindRef(n, pk, idx, x, unsafe).Some? && !FindRef(n, pk, idx, x, unsafe).value.unsafe
    requires ValidPath(n, FindRef(n, pk, idx, x, unsafe).value.path)
    ensures Replace(n, FindRef(n, pk, idx, x, unsafe).value.path, init) == Subst(n, pk, idx, x, init)
    ensures SafeRefs(n, pk, idx, x) && !unsafe
    decreases n
  {
    if n.kind != Ident {
      var unsafe' := unsafe || UnsafeKind(n.kind);
      var f := OneHolder(n, 0, x);
      var g := FoundChild(n, 0, x, unsafe');
      var inner := FindRef(n.children[g], n.kind, g, x, unsafe').value;
      var path := [g] + inner.path;
      assert path[1..] == inner.path;
      KidCount(n, 0, g, x);
      FoundIsCounted(n.children[g], n.kind, g, x, unsafe');
      assert g == f;
      FindIsSubst(n.children[f], n.kind, f, x, unsafe', init);
      forall j | 0 <= j < |n.children| && j != f
        ensures Subst(n.children[j], n.kind, j, x, init) == n.children[j] && SafeRefs(n.children[j], n.kind, j, x)
      {
        SubstNone(n.children[j], n.kind, j, x, init);
      }
      assert Replace(n, path, init).children == Subst(n, pk, idx, x, init).children;
    }
  }

  // ----- the site of the fix -----

  /** The `let` is statement `i` of `list`, its one use lies in the next statement, and no later
      statement mentions its name. */
  predicate SiteOk(list: Node, i: nat, x: string) {
    && list.kind == StmtList && i + 1 < |list.children|
    && var decl, next := list.children[i], list.children[i + 1];
    && decl.kind == BindStmt && |decl.children| >= 2 && NameIs(decl.children[0], x)
    && var init := decl.children[|decl.children| - 1];
    && !IdentUsedIn(init, x) && IsPureExpr(init) && !StmtWritesIdentOf(next, init)
    && Clean(next, StmtList, i + 1, x) && Refs(next, StmtList, i + 1, x).astRefs == 1
    && Unmentioned(list, i + 2, x)
    && var use := FindRef(next, StmtList, i + 1, x, false);
    && use.Some? && !use.value.unsafe && ValidPath(next, use.value.path)
  }

  /** No statement from `from` on mentions `x`. */
  predicate Unmentioned(list: Node, from: nat, x: string) {
    forall j | from <= j < |list.children| :: IdentNodes(list.children[j], StmtList, j, x) == 0
  }

  // ----- the rewritten list -----

  /** Running some children depends on those children only. */
  lemma {:induction false} KidsShift(m: Machine, n: Node, i: nat, hi: nat, n': Node, i': nat, hi': nat, env: Env,
                                     tr: Trace, fuel: nat)
    requires i <= hi <= |n.children| && i' <= hi' <= |n'.children|
    requires n.children[i..hi] == n'.children[i'..hi']
    ensures ExecKids(m, n, i, hi, env, tr, fuel) == ExecKids(m, n', i', hi', env, tr, fuel)
    decreases hi - i
  {
    hide Exec;
    if i < hi {
      assert n.children[i..hi][0] == n'.children[i'..hi'][0];
      assert n.children[i + 1..hi] == n.children[i..hi][1..] == n'.children[i'..hi'][1..] == n'.children[i' + 1..hi'];
      match Exec(m, n.children[i], env, tr, fuel)
      case Done(_, env1, tr1) => KidsShift(m, n, i + 1, hi, n', i' + 1, hi', env1, tr1, fuel);
      case _ =>
    }
  }

  /** The statements from some point on, as a list of their own, are ready for the simulation. */
  lemma TailReady(c: Inlining, list: Node, rest: Node, from: nat, env: Env)
    requires list.kind == StmtList && from <= |list.children|
    requires c.x != "" && c.k <= |env| && FreeAbove(env, c.k, c.x) && IsPureExpr(c.init) && !IdentUsedIn(c.init, c.x)
    requires Unmentioned(list, from, c.x)
    requires rest == Node(StmtList, Tokens.Eof, "", list.children[from..])
    ensures Pre(c, rest, Program, 0, env, false) && c.Sub(rest, Program, 0) == rest
  {
    hide IsPureExpr, IdentUsedIn, Subst, SafeRefs, StmtWritesIdentOf, RefKids;
    forall j | 0 <= j < |rest.children| ensures IdentNodes(rest.children[j], StmtList, j, c.x) == 0 {
      assert rest.children[j] == list.children[j + from];
      CountPlace(rest.children[j], StmtList, j, j + from, c.x);
      hide Refs;
    }
    NoKidRefs(rest, 0, c.x);
    assert IdentNodes(rest, Program, 0, c.x) == 0;
    SubstNone(rest, Program, 0, c.x, c.init);
  }

  /** Statements that do not mention the name run alike with and without the slot. */
  lemma TailSim(c: Inlining, list: Node, from: nat, env: Env, tr: Trace, fuel: nat)
    requires list.kind == StmtList && from <= |list.children|
    requires c.x != "" && c.k <= |env| && FreeAbove(env, c.k, c.x) && IsPureExpr(c.init) && !IdentUsedIn(c.init, c.x)
    requires Unmentioned(list, from, c.x)
    ensures RelKids(c, ExecKids(c.m, list, from, |list.children|, c.Big(env), tr, fuel),
                    ExecKids(c.m, list, from, |list.children|, env, tr, fuel))
  {
    hide Exec, ExecKids, Ins, Subst, Refs, Pre, IsPureExpr, IdentUsedIn, FreeAbove, RelKids;
    var rest := Node(StmtList, Tokens.Eof, "", list.children[from..]);
    assert list.children[from..|list.children|] == rest.children[0..|rest.children|];
    KidsShift(c.m, list, from, |list.children|, rest, 0, |rest.children|, c.Big(env), tr, fuel);
    KidsShift(c.m, list, from, |list.children|, rest, 0, |rest.children|, env, tr, fuel);
    TailReady(c, list, rest, from, env);
    SimKids(c, rest, Program, 0, 0, |rest.children|, env, tr, fuel, false);
  }

  /** Statement positions do not matter to the census. */
  lemma CountPlace(n: Node, pk: Kind, i: nat, j: nat, x: string)
    requires pk == StmtList
    ensures Refs(n, pk, i, x) == Refs(n, pk, j, x)
  {}

  lemma {:induction false} NoKidRefs(n: Node, i: nat, x: string)
    requires i <= |n.children|
    requires forall j | i <= j < |n.children| :: IdentNodes(n.children[j], n.kind, j, x) == 0
    ensures KidNodes(n, i, x) == 0
    decreases |n.children| - i
  {
    hide IdentNodes, KidNodes;
    if i < |n.children| {
      KidNodesStep(n, i, x);
      NoKidRefs(n, i + 1, x);
    } else {
      NodesOpen(n, Program, 0, x);
    }
  }

  /** Two runs of a list end alike once the list's own slots are dropped. */
  ghost predicate AfterList(o: KidsOut, o': KidsOut, base: nat) {
    match o
    case Vals(vs, env, tr) =>
      o'.Vals? && Last(o'.vs) == Last(vs) && o'.vs != [] && vs != [] && o'.tr == tr
        && Trunc(o'.env, base) == Trunc(env, base)
    case Early(out) => out.Fault? || (o'.Early? && Leaving(o'.out, base) == Leaving(out, base))
  }

  lemma TruncRel(c: Inlining, env: Env, env': Env, base: nat)
    requires RelEnv(c, env, env') && base <= c.k
    ensures Trunc(env, base) == Trunc(env', base)
  {}

  lemma LeavingSame(c: Inlining, o: Out, o': Out, base: nat)
    requires RelOut(c, o, o') && base <= c.k && !o.Fault?
    ensures Leaving(o, base) == Leaving(o', base)
  {
    hide RelEnv, Trunc;
    match o
    case Done(_, env, _) => TruncRel(c, env, o'.env, base);
    case Broke(env, _) => TruncRel(c, env, o'.env, base);
    case _ =>
  }

  function More(w: Value, o: KidsOut): KidsOut {
    match o
    case Vals(vs, env, tr) => Vals([w] + vs, env, tr)
    case Early(_) => o
  }

  lemma AfterRel(c: Inlining, o: KidsOut, o': KidsOut, base: nat, v: Value)
    requires RelKids(c, o, o') && base <= c.k
    ensures AfterList(More(v, o), More(v, o'), base)
  {
    hide RelEnv, Trunc, RelOut;
    match o
    case Vals(_, env, _) => TruncRel(c, env, o'.env, base);
    case Early(out) => if !out.Fault? { LeavingSame(c, out, o'.out, base); }
  }

  /** A value before the last one does not matter to a block. */
  lemma AfterSkip(o: KidsOut, o': KidsOut, base: nat, v: Value)
    requires AfterList(o, o', base)
    ensures AfterList(More(v, o), o', base)
  {
    hide Trunc;
  }

  lemma SpliceChildren(cs: seq<Node>, i: nat, next': Node, cs': seq<Node>)
    requires i + 1 < |cs| && cs' == cs[..i] + [next'] + cs[i + 2..]
    ensures |cs'| == |cs| - 1 && cs'[i] == next' && cs'[i + 1..] == cs[i + 2..]
    ensures forall j | 0 <= j < i :: cs'[j] == cs[j]
  {}

  lemma UseFound(list: Node, i: nat, x: string)
    requires SiteOk(list, i, x)
    ensures var decl, next, use := list.children[i], list.children[i + 1],
                                   FindRef(list.children[i + 1], StmtList, i + 1, x, false);
            var init := decl.children[|decl.children| - 1];
            && use.Some? && ValidPath(next, use.value.path)
            && Replace(next, use.value.path, init) == Subst(next, StmtList, i + 1, x, init)
            && SafeRefs(next, StmtList, i + 1, x)
  {
    var next := list.children[i + 1];
    hide FindRef, Refs, SafeRefs, Subst, IdentUsedIn, IsPureExpr, StmtWritesIdentOf, Replace;
    FindIsSubst(next, StmtList, i + 1, x, false, list.children[i].children[|list.children[i].children| - 1]);
  }

  /** The rewritten list, statement by statement. */
  lemma InlinedList(list: Node, i: nat, use: Use, decl: Node, next: Node, next': Node)
    requires list.kind == StmtList && i + 1 < |list.children| && list.children[i] == decl
             && list.children[i + 1] == next
    requires |decl.children| > 0 && FindRef(next, StmtList, i + 1, decl.children[0].text, false) == Some(use)
    requires ValidPath(next, use.path) && Replace(next, use.path, decl.children[|decl.children| - 1]) == next'
    ensures var list' := InlineInList(list, i);
            && list'.kind == StmtList && |list'.children| == |list.children| - 1
            && (forall j | 0 <= j < i :: list'.children[j] == list.children[j])
            && list'.children[i] == next'
            && list'.children[i + 1..] == list.children[i + 2..]
  {
    hide FindRef, Replace, ValidPath;
    SpliceChildren(list.children, i, next', InlineInList(list, i).children);
  }

  /** The `let` pushes the value of its pure initialiser. */
  lemma DeclExec(m: Machine, decl: Node, env: Env, tr: Trace, fuel: nat)
    requires decl.kind == BindStmt && |decl.children| >= 2 && IsIdent(decl.children[0])
    requires IsPureExpr(decl.children[|decl.children| - 1])
    ensures var val := PureVal(m, decl.children[|decl.children| - 1], env);
            Exec(m, decl, env, tr, fuel) ==
            if val.None? then Fault else Done(Unit, env + [Slot(decl.children[0].text, val.value)], tr)
  {
    var last := |decl.children| - 1;
    hide Exec, ExecKids, PureVal, IsPureExpr;
    PureExec(m, decl.children[last], env, tr, fuel);
    OneKid(m, decl, last, env, tr, fuel, PureVal(m, decl.children[last], env));
    PlainExec(m, decl, env, tr, fuel);
  }

  lemma UsePre(c: Inlining, next: Node, i: nat, env: Env)
    requires c.x != "" && c.k == |env| && IsPureExpr(c.init) && !IdentUsedIn(c.init, c.x)
    requires Clean(next, StmtList, i + 1, c.x) && SafeRefs(next, StmtList, i + 1, c.x)
             && !StmtWritesIdentOf(next, c.init)
    requires PureVal(c.m, c.init, env) == Some(c.v)
    ensures Pre(c, next, StmtList, i + 1, env, true)
  {
    hide Refs, SafeRefs, StmtWritesIdentOf, IsPureExpr, PureVal;
    assert Agree(c.init, env, c.Big(env)) by {
      forall y | IdentUsedIn(c.init, y) ensures Lookup(env, y) == Lookup(c.Big(env), y) {
        InsLookup(env, c.k, c.x, c.v, y);
      }
    }
    PureAgree(c.m, c.init, env, c.Big(env));
  }

  /** From the `let` on: the original list runs `let x=init; next; rest`, the rewritten one `next'; rest`. */
  lemma ListFromDecl(m: Machine, list: Node, i: nat, x: string, base: nat, env: Env, tr: Trace, fuel: nat)
    requires SiteOk(list, i, x) && base <= |env|
    ensures |InlineInList(list, i).children| == |list.children| - 1
    ensures AfterList(ExecKids(m, list, i, |list.children|, env, tr, fuel),
                      ExecKids(m, InlineInList(list, i), i, |list.children| - 1, env, tr, fuel), base)
  {
    hide Exec, FindRef, Refs, SafeRefs, Subst, IdentUsedIn, IsPureExpr, StmtWritesIdentOf, Replace,
      InlineInList, PureVal, RelOut, Pre, Ins, Trunc;
    UseFound(list, i, x);
    var decl, next, list' := list.children[i], list.children[i + 1], InlineInList(list, i);
    var init := decl.children[|decl.children| - 1];
    InlinedList(list, i, FindRef(next, StmtList, i + 1, x, false).value, decl, next,
      Subst(next, StmtList, i + 1, x, init));
    DeclExec(m, decl, env, tr, fuel);
    if PureVal(m, init, env).Some? {
      var c := Inlining(m, x, init, PureVal(m, init, env).value, |env|);
      InsTop(env, |env|, x, c.v);
      assert IsPureExpr(init) && !IdentUsedIn(init, x) && !StmtWritesIdentOf(next, init);
      UsePre(c, next, i, env);
      Sim(c, next, StmtList, i + 1, env, tr, fuel, true);
      ListFromUse(c, list, list', i, base, env, tr, fuel);
    }
  }

  lemma ListFromUse(c: Inlining, list: Node, list': Node, i: nat, base: nat, env: Env, tr: Trace, fuel: nat)
    requires list.kind == StmtList && i + 1 < |list.children| && |list'.children| == |list.children| - 1
    requires list'.children[i + 1..] == list.children[i + 2..]
    requires c.x != "" && IsPureExpr(c.init) && !IdentUsedIn(c.init, c.x) && base <= c.k
    requires Unmentioned(list, i + 2, c.x)
    requires Exec(c.m, list.children[i], env, tr, fuel) == Done(Unit, c.Big(env), tr)
    requires RelOut(c, Exec(c.m, list.children[i + 1], c.Big(env), tr, fuel),
                    Exec(c.m, list'.children[i], env, tr, fuel))
    ensures AfterList(ExecKids(c.m, list, i, |list.children|, env, tr, fuel),
                      ExecKids(c.m, list', i, |list.children| - 1, env, tr, fuel), base)
  {
    hide Exec, Ins, Refs, IsPureExpr, IdentUsedIn, Clean, Refs, FreeAbove, AfterList;
    var n := |list.children|;
    var o, o' := Exec(c.m, list.children[i + 1], c.Big(env), tr, fuel), Exec(c.m, list'.children[i], env, tr, fuel);
    match o
    case Done(w, big1, tr1) =>
      TailSim(c, list, i + 2, o'.env, tr1, fuel);
      assert list'.children[i + 1..n - 1] == list'.children[i + 1..];
      assert list.children[i + 2..n] == list.children[i + 2..];
      KidsShift(c.m, list, i + 2, n, list', i + 1, n - 1, o'.env, tr1, fuel);
      var t, t' := ExecKids(c.m, list, i + 2, n, big1, tr1, fuel),
        ExecKids(c.m, list', i + 1, n - 1, o'.env, tr1, fuel);
      AfterRel(c, t, t', base, w);
      AfterSkip(More(w, t), More(w, t'), base, Unit);
    case _ =>
      assert ExecKids(c.m, list, i + 1, n, c.Big(env), tr, fuel) == Early(o);
      AfterCut(c, o, o', base, ExecKids(c.m, list', i, n - 1, env, tr, fuel));
  }

  lemma AfterCut(c: Inlining, o: Out, o': Out, base: nat, k': KidsOut)
    requires RelOut(c, o, o') && base <= c.k && !o.Done? && (!o'.Done? ==> k' == Early(o'))
    ensures AfterList(Early(o), k', base)
  {
    if !o.Fault? { LeavingSame(c, o, o', base); }
  }

  lemma ListShape(list: Node, i: nat, x: string)
    requires SiteOk(list, i, x)
    ensures i + 1 < |list.children| && list.kind == StmtList && |list.children[i].children| > 0
    ensures var list' := InlineInList(list, i);
            && list'.kind == StmtList && |list'.children| == |list.children| - 1
            && (forall j | 0 <= j < i :: list'.children[j] == list.children[j])
  {
    hide FindRef, Refs, SafeRefs, Subst, IdentUsedIn, IsPureExpr, StmtWritesIdentOf, Replace, InlineInList, ValidPath;
    UseFound(list, i, x);
    var decl, next := list.children[i], list.children[i + 1];
    InlinedList(list, i, FindRef(next, StmtList, i + 1, x, false).value, decl, next,
                Subst(next, StmtList, i + 1, x, decl.children[|decl.children| - 1]));
  }

  /** The statements before the `let` are the same. */
  lemma {:induction false} ListRun(m: Machine, list: Node, list': Node, i: nat, x: string, j: nat, base: nat,
                                   env: Env, tr: Trace, fuel: nat)
    requires SiteOk(list, i, x) && base <= |env| && j <= i
    requires i + 1 < |list.children| && |list.children[i].children| > 0 && list' == InlineInList(list, i)
    requires |list'.children| == |list.children| - 1 && forall j | 0 <= j < i :: list'.children[j] == list.children[j]
    ensures AfterList(ExecKids(m, list, j, |list.children|, env, tr, fuel),
                      ExecKids(m, list', j, |list.children| - 1, env, tr, fuel), base)
    decreases i - j
  {
    if j == i {
      ListFromDecl(m, list, i, x, base, env, tr, fuel);
    } else {
      hide Exec, SiteOk, InlineInList, AfterList;
      StmtKeepsLen(m, list.children[j], env, tr, fuel);
      match Exec(m, list.children[j], env, tr, fuel)
      case Done(w, env1, tr1) =>
        ListRun(m, list, list', i, x, j + 1, base, env1, tr1, fuel);
        AfterMore(ExecKids(m, list, j + 1, |list.children|, env1, tr1, fuel),
                  ExecKids(m, list', j + 1, |list.children| - 1, env1, tr1, fuel), base, w);
      case o => AfterEarly(o, base);
    }
  }

  lemma AfterMore(o: KidsOut, o': KidsOut, base: nat, w: Value)
    requires AfterList(o, o', base)
    ensures AfterList(More(w, o), More(w, o'), base)
  {}

  lemma AfterEarly(o: Out, base: nat)
    ensures AfterList(Early(o), Early(o), base)
  {}

  /** Names mentioned by an integer literal: none.  Every run keeps the slots it starts with. */
  lemma StmtKeepsLen(m: Machine, n: Node, env: Env, tr: Trace, fuel: nat)
    ensures OutKeeps(env, Exec(m, n, env, tr, fuel), Node(IntLit, Tokens.Eof, "", []))
    ensures Exec(m, n, env, tr, fuel).Done? ==> |env| <= |Exec(m, n, env, tr, fuel).env|
  {
    NoNames(n);
    hide Exec, StmtWritesIdentOf;
    ExecKeeps(m, n, env, tr, fuel, Node(IntLit, Tokens.Eof, "", []));
  }

  lemma {:induction false} NoNames(n: Node)
    ensures !StmtWritesIdentOf(n, Node(IntLit, Tokens.Eof, "", []))
  {
    forall j | 0 <= j < |n.children| ensures !StmtWritesIdentOf(n.children[j], Node(IntLit, Tokens.Eof, "", [])) {
      NoNames(n.children[j]);
    }
  }

  /** The rewritten list ends every run as the original one does, with the same locals remaining. */
  lemma ListSame(m: Machine, list: Node, i: nat, x: string, env: Env, tr: Trace, fuel: nat)
    requires SiteOk(list, i, x)
    ensures i + 1 < |list.children| && |list.children[i].children| > 0
    ensures Same(Exec(m, list, env, tr, fuel), Exec(m, InlineInList(list, i), env, tr, fuel))
  {
    ListShape(list, i, x);
    hide Exec, ExecKids, SiteOk, InlineInList, Trunc;
    var list' := InlineInList(list, i);
    ListRun(m, list, list', i, x, 0, |env|, env, tr, fuel);
    BlockExec(m, list, env, tr, fuel);
    BlockExec(m, list', env, tr, fuel);
  }

  // ----- the theorem -----

  /** The tree census counts no less than the one that stops at strings. */
  lemma {:induction false} CensusBelow(n: Node, pk: Kind, idx: nat, x: string)
    ensures CountRefs(n, pk, idx, x, None).astRefs <= Refs(n, pk, idx, x).astRefs
    decreases n, 1, 0
  {
    if n.kind != Ident && !(n.kind == StrLit && n.text != "") { CensusKidsBelow(n, 0, x); }
  }

  lemma {:induction false} CensusKidsBelow(n: Node, i: nat, x: string)
    requires i <= |n.children|
    ensures CountKids(n, i, x, None).astRefs <= RefKids(n, i, x).astRefs
    decreases n, 0, |n.children| - i
  {
    if i < |n.children| {
      CensusBelow(n.children[i], n.kind, i, x);
      CensusKidsBelow(n, i + 1, x);
    }
  }

  /** The guards of the fix establish the site when the use is the only other occurrence of the name. */
  lemma {:induction false} FixableSite(fn: Node, path: seq<nat>, i: nat)
    requires SingleUseFixable(fn, path, i) && OnlyUse(At(fn, path), i)
    ensures SiteOk(At(fn, path), i, At(fn, path).children[i].children[0].text)
  {
    var list := At(fn, path);
    var next, x := list.children[i + 1], list.children[i].children[0].text;
    hide FindRef, CountRefs, Refs, KidNodes, StmtWritesIdentOf, IdentUsedIn, IsPureExpr, ValidPath;
    FindRefValid(next, StmtList, i + 1, x, false);
    FoundIsCounted(next, StmtList, i + 1, x, false);
    CensusBelow(next, StmtList, i + 1, x);
    NodesOpen(list, Program, 0, x);
    KidTotal(list, 0, i, x);
    KidTotal(list, i + 1, i + 1, x);
    forall j | i + 2 <= j < |list.children| ensures IdentNodes(list.children[j], StmtList, j, x) == 0 {
      KidTotal(list, i + 2, j, x);
    }
  }

  /**
   Main theorem.  Take any function, any `let` in any of its statement lists for which every guard of the
   fix holds and whose name occurs once more in the list, expressions below strings included, any meaning
   of the primitives, any arguments and any fuel.  If the original run does not fault, the rewritten
   function gives the same result and the same trace, or is cut off by the fuel with the same trace.
   */
  lemma InlinePreservesMeaning(m: Machine, fn: Node, path: seq<nat>, i: nat, args: seq<Value>, fuel: nat)
    requires SingleUseFixable(fn, path, i) && OnlyUse(At(fn, path), i)
    ensures RunFn(m, fn, args, fuel) != Failed ==>
              RunFn(m, Inline(fn, path, i), args, fuel) == RunFn(m, fn, args, fuel)
  {
    FixableSite(fn, path, i);
    var list := At(fn, path);
    var x := list.children[i].children[0].text;
    ListShape(list, i, x);
    var list' := InlineInList(list, i);
    assert list'.op == list.op && list'.text == list.text;
    hide SiteOk, SingleUseFixable, InlineInList, Exec, RunFn;
    forall env, tr, fuel: nat ensures Same(Exec(m, list, env, tr, fuel), Exec(m, list', env, tr, fuel)) {
      ListSame(m, list, i, x, env, tr, fuel);
    }
    RunCongruence(m, fn, path, list', args, fuel);
  }

  // ----- what the fix leaves behind -----

  /** A name that does not occur is not counted. */
  lemma {:induction false} UnusedNodes(n: Node, pk: Kind, idx: nat, x: string)
    requires !IdentUsedIn(n, x)
    ensures IdentNodes(n, pk, idx, x) == 0
    decreases n
  {
    if n.kind != Ident {
      forall j | 0 <= j < |n.children| ensures IdentNodes(n.children[j], n.kind, j, x) == 0 {
        UnusedNodes(n.children[j], n.kind, j, x);
      }
      NoKidRefs(n, 0, x);
      NodesOpen(n, pk, idx, x);
    }
  }

  /** Only child `j` differs. */
  lemma {:induction false} KidsChanged(n: Node, n': Node, i: nat, j: nat, x: string)
    requires i <= j < |n.children| == |n'.children| && n'.kind == n.kind
    requires forall k | i <= k < |n.children| && k != j :: n'.children[k] == n.children[k]
    ensures KidNodes(n', i, x) + IdentNodes(n.children[j], n.kind, j, x)
            == KidNodes(n, i, x) + IdentNodes(n'.children[j], n.kind, j, x)
    decreases j - i
  {
    hide IdentNodes, KidNodes;
    KidNodesStep(n, i, x);
    KidNodesStep(n', i, x);
    if i < j { KidsChanged(n, n', i + 1, j, x); } else { KidsEqual(n, n', i + 1, x); }
  }

  lemma {:induction false} KidsEqual(n: Node, n': Node, i: nat, x: string)
    requires i <= |n.children| == |n'.children| && n'.kind == n.kind
    requires forall k | i <= k < |n.children| :: n'.children[k] == n.children[k]
    ensures KidNodes(n', i, x) == KidNodes(n, i, x)
    decreases |n.children| - i
  {
    hide IdentNodes, KidNodes;
    if i < |n.children| {
      KidNodesStep(n, i, x);
      KidNodesStep(n', i, x);
      KidsEqual(n, n', i + 1, x);
    } else {
      NodesOpen(n, Program, 0, x);
      NodesOpen(n', Program, 0, x);
    }
  }

  /** Replacing what the search finds takes away one occurrence. */
  lemma {:induction false} FoundReplaced(n: Node, pk: Kind, idx: nat, x: string, unsafe: bool, init: Node)
    requires FindRef(n, pk, idx, x, unsafe).Some? && !IdentUsedIn(init, x)
    ensures var path := FindRef(n, pk, idx, x, unsafe).value.path;
            ValidPath(n, path) && IdentNodes(Replace(n, path, init), pk, idx, x) + 1 == IdentNodes(n, pk, idx, x)
    decreases n
  {
    hide FindRef, Refs, RefKids, IdentNodes, KidNodes, IdentUsedIn;
    if n.kind == Ident {
      FoundHere(n, pk, idx, x, unsafe);
      UnusedNodes(init, pk, idx, x);
    } else {
      var unsafe' := unsafe || UnsafeKind(n.kind);
      FindRefOpens(n, pk, idx, x, unsafe);
      var g := FoundChild(n, 0, x, unsafe');
      var inner := FindRef(n.children[g], n.kind, g, x, unsafe').value;
      var path := [g] + inner.path;
      assert path[1..] == inner.path;
      FoundReplaced(n.children[g], n.kind, g, x, unsafe', init);
      KidsChanged(n, Replace(n, path, init), 0, g, x);
      NodesOpen(n, pk, idx, x);
      NodesOpen(Replace(n, path, init), pk, idx, x);
    }
  }

  /** Replacing a list changes the occurrences by those it held and those of the new one. */
  lemma {:induction false} ListReplaced(n: Node, pk: Kind, idx: nat, path: seq<nat>, sub: Node, x: string)
    requires ValidPath(n, path) && At(n, path).kind == StmtList == sub.kind
    ensures IdentNodes(Replace(n, path, sub), pk, idx, x) + IdentNodes(At(n, path), Program, 0, x)
            == IdentNodes(n, pk, idx, x) + IdentNodes(sub, Program, 0, x)
    decreases |path|
  {
    if path == [] {
      NodesOpen(n, pk, idx, x);
      NodesOpen(n, Program, 0, x);
      NodesOpen(sub, pk, idx, x);
      NodesOpen(sub, Program, 0, x);
      hide IdentNodes, KidNodes;
    } else {
      hide IdentNodes, KidNodes;
      ListReplaced(n.children[path[0]], n.kind, path[0], path[1..], sub, x);
      KidsChanged(n, Replace(n, path, sub), 0, path[0], x);
      NodesOpen(n, pk, idx, x);
      NodesOpen(Replace(n, path, sub), pk, idx, x);
    }
  }

  lemma {:induction false} KidsShifted(list: Node, list': Node, i: nat, x: string)
    requires 0 < i <= |list.children| && |list'.children| == |list.children| - 1 && list.kind == StmtList == list'.kind
    requires list'.children[i - 1..] == list.children[i..]
    ensures KidNodes(list', i - 1, x) == KidNodes(list, i, x)
    decreases |list.children| - i
  {
    if i < |list.children| {
      assert list'.children[i - 1] == list'.children[i - 1..][0] == list.children[i];
      assert list'.children[i..] == list'.children[i - 1..][1..] == list.children[i..][1..] == list.children[i + 1..];
      CountPlace(list.children[i], StmtList, i - 1, i, x);
      hide Refs, KidNodes;
      KidNodesStep(list, i, x);
      KidNodesStep(list', i - 1, x);
      KidsShifted(list, list', i + 1, x);
    } else {
      NodesOpen(list, Program, 0, x);
      NodesOpen(list', Program, 0, x);
    }
  }

  /** The list loses the occurrences of the `let` and one more. */
  lemma {:induction false} SplicedNodes(list: Node, list': Node, i: nat, j: nat, x: string)
    requires list.kind == StmtList == list'.kind && j <= i && i + 1 < |list.children|
    requires |list'.children| == |list.children| - 1 && list'.children[i + 1..] == list.children[i + 2..]
    requires forall k | 0 <= k < i :: list'.children[k] == list.children[k]
    requires IdentNodes(list'.children[i], StmtList, i + 1, x) + 1
             == IdentNodes(list.children[i + 1], StmtList, i + 1, x)
    ensures KidNodes(list', j, x) + IdentNodes(list.children[i], StmtList, i, x) + 1 == KidNodes(list, j, x)
    decreases i - j
  {
    if j < i {
      hide IdentNodes, KidNodes;
      KidNodesStep(list, j, x);
      KidNodesStep(list', j, x);
      SplicedNodes(list, list', i, j + 1, x);
    } else {
      CountPlace(list'.children[i], StmtList, i, i + 1, x);
      hide Refs, KidNodes;
      KidNodesStep(list, i, x);
      KidNodesStep(list, i + 1, x);
      KidNodesStep(list', i, x);
      KidsShifted(list, list', i + 2, x);
    }
  }

  lemma {:induction false} InlinedNodes(list: Node, i: nat, x: string)
    requires list.kind == StmtList && i + 1 < |list.children|
    requires var decl := list.children[i];
             && |decl.children| > 0 && decl.children[0].text == x
             && !IdentUsedIn(decl.children[|decl.children| - 1], x)
    requires FindRef(list.children[i + 1], StmtList, i + 1, x, false).Some?
    ensures var list' := InlineInList(list, i);
            && list'.kind == StmtList
            && IdentNodes(list', Program, 0, x) + IdentNodes(list.children[i], StmtList, i, x) + 1
               == IdentNodes(list, Program, 0, x)
  {
    var decl, next := list.children[i], list.children[i + 1];
    var init, use := decl.children[|decl.children| - 1], FindRef(next, StmtList, i + 1, x, false).value;
    hide *;
    FoundReplaced(next, StmtList, i + 1, x, false, init);
    InlinedList(list, i, use, decl, next, Replace(next, use.path, init));
    SplicedWhole(list, InlineInList(list, i), i, x);
  }

  lemma {:induction false} SplicedWhole(list: Node, list': Node, i: nat, x: string)
    requires list.kind == StmtList == list'.kind && i + 1 < |list.children|
    requires |list'.children| == |list.children| - 1 && list'.children[i + 1..] == list.children[i + 2..]
    requires forall k | 0 <= k < i :: list'.children[k] == list.children[k]
    requires IdentNodes(list'.children[i], StmtList, i + 1, x) + 1
             == IdentNodes(list.children[i + 1], StmtList, i + 1, x)
    ensures IdentNodes(list', Program, 0, x) + IdentNodes(list.children[i], StmtList, i, x) + 1
            == IdentNodes(list, Program, 0, x)
  {
    hide IdentNodes, KidNodes;
    SplicedNodes(list, list', i, 0, x);
    NodesOpen(list, Program, 0, x);
    NodesOpen(list', Program, 0, x);
  }

  /** A list holds no more than the tree around it. */
  lemma {:induction false} NodesAt(n: Node, pk: Kind, idx: nat, path: seq<nat>, x: string)
    requires ValidPath(n, path) && At(n, path).kind == StmtList
    ensures IdentNodes(At(n, path), Program, 0, x) <= IdentNodes(n, pk, idx, x)
    decreases |path|
  {
    hide IdentNodes, KidNodes;
    NodesOpen(n, pk, idx, x);
    if path == [] {
      NodesOpen(n, Program, 0, x);
    } else {
      NodesAt(n.children[path[0]], n.kind, path[0], path[1..], x);
      KidTotal(n, 0, path[0], x);
    }
  }

  /** Exactness.  For every fixable `let`: its name is gone from the function, strings included, if and
      only if the function held one occurrence besides those in the `let` itself; then the main theorem
      applies. */
  lemma {:induction false} NameGoneIff(fn: Node, path: seq<nat>, i: nat)
    requires SingleUseFixable(fn, path, i)
    ensures var list := At(fn, path);
            var decl := list.children[i];
            var x := decl.children[0].text;
            && IdentNodes(Inline(fn, path, i), Program, 0, x) + IdentNodes(decl, StmtList, i, x) + 1
               == IdentNodes(fn, Program, 0, x)
            && (IdentNodes(Inline(fn, path, i), Program, 0, x) == 0
                <==> IdentNodes(fn, Program, 0, x) == IdentNodes(decl, StmtList, i, x) + 1)
            && (IdentNodes(Inline(fn, path, i), Program, 0, x) == 0 ==> OnlyUse(list, i))
  {
    var list := At(fn, path);
    var x := list.children[i].children[0].text;
    hide FindRef, InlineInList, IdentUsedIn, CountRefs, IsPureExpr, StmtWritesIdentOf, IdentNodes, Replace;
    InlinedNodes(list, i, x);
    ListReplaced(fn, Program, 0, path, InlineInList(list, i), x);
    NodesAt(fn, Program, 0, path, x);
  }

  /** The type of a `let`, if it has one, does not mention the name. */
  predicate TypeSilent(decl: Node) {
    forall j | 1 <= j < |decl.children| - 1 :: !IdentUsedIn(decl.children[j], decl.children[0].text)
  }

  /** With a `let` whose type does not mention its name, that is two occurrences in all. */
  lemma {:induction false} NameGoneIffTwo(fn: Node, path: seq<nat>, i: nat)
    requires SingleUseFixable(fn, path, i)
    requires TypeSilent(At(fn, path).children[i])
    ensures var x := At(fn, path).children[i].children[0].text;
            IdentNodes(Inline(fn, path, i), Program, 0, x) == 0 <==> IdentNodes(fn, Program, 0, x) == 2
  {
    hide IdentNodes, Inline, FindRef, CountRefs, IdentUsedIn, IsPureExpr, StmtWritesIdentOf;
    var decl := At(fn, path).children[i];
    LetHoldsOne(decl, i);
    NameGoneIff(fn, path, i);
  }

  /** A `let` without a type, or with a type that is no name, holds its name once. */
  lemma {:induction false} LetHoldsOne(decl: Node, i: nat)
    requires decl.kind == BindStmt && |decl.children| >= 2 && IsIdent(decl.children[0])
    requires !IdentUsedIn(decl.children[|decl.children| - 1], decl.children[0].text)
    requires TypeSilent(decl)
    ensures IdentNodes(decl, StmtList, i, decl.children[0].text) == 1
  {
    var x := decl.children[0].text;
    forall j | 1 <= j < |decl.children| ensures IdentNodes(decl.children[j], BindStmt, j, x) == 0 {
      UnusedNodes(decl.children[j], BindStmt, j, x);
    }
    NoKidRefs(decl, 1, x);
    KidNodesStep(decl, 0, x);
    NodesOpen(decl, StmtList, i, x);
  }
}
