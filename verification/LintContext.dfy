/**
 Replacing a statement list anywhere in a function by one that runs alike: the surrounding code
 cannot tell.
 */
module LintContext {
  import opened Wrappers
  import opened LintAst
  import opened LintSemantics

  /** The second run ends like the first; a faulting first run puts no demand on it. */
  ghost predicate Same(o: Out, o': Out) {
    o.Fault? || o' == o
  }

  ghost predicate SameKids(o: KidsOut, o': KidsOut) {
    o == Early(Fault) || o' == o
  }

  /** `n'` is `n` with the statement list at `path` replaced by `sub`, and `sub` runs alike. */
  ghost predicate Swap(m: Machine, n: Node, n': Node, path: seq<nat>, sub: Node) {
    && ValidPath(n, path) && n' == Replace(n, path, sub)
    && var list := At(n, path);
    && list.kind == StmtList == sub.kind && sub.op == list.op && sub.text == list.text
    && forall env, tr, fuel: nat :: Same(Exec(m, list, env, tr, fuel), Exec(m, sub, env, tr, fuel))
  }

  lemma SwapHead(m: Machine, n: Node, n': Node, path: seq<nat>, sub: Node)
    requires Swap(m, n, n', path, sub)
    ensures n'.kind == n.kind && n'.op == n.op && n'.text == n.text
  {}

  /** Below the top only the child on the path differs, and it is swapped in turn. */
  lemma SwapBelow(m: Machine, n: Node, n': Node, path: seq<nat>, sub: Node)
    requires Swap(m, n, n', path, sub) && path != []
    ensures path[0] < |n.children| == |n'.children| && n'.kind == n.kind && n'.op == n.op && n'.text == n.text
    ensures Swap(m, n.children[path[0]], n'.children[path[0]], path[1..], sub)
    ensures forall j | 0 <= j < |n.children| && j != path[0] :: n'.children[j] == n.children[j]
  {}

  lemma SwapFacts(m: Machine, n: Node, n': Node, path: seq<nat>, sub: Node)
    requires Swap(m, n, n', path, sub) && path != []
    ensures n'.kind == n.kind && n'.op == n.op && n'.text == n.text && |n'.children| == |n.children|
    ensures forall j | 0 <= j < |n.children| ::
              n'.children[j].kind == n.children[j].kind && n'.children[j].text == n.children[j].text
    ensures ShapeOk(n') == ShapeOk(n)
    ensures ShapeOk(n) ==> EvalLo(n') == EvalLo(n) && EvalHi(n') == EvalHi(n)
  {
    SwapBelow(m, n, n', path, sub);
    SwapHead(m, n.children[path[0]], n'.children[path[0]], path[1..], sub);
    hide Swap;
  }

  lemma {:induction false} Congruence(m: Machine, n: Node, n': Node, path: seq<nat>, sub: Node, env: Env, tr: Trace,
                                      fuel: nat)
    requires Swap(m, n, n', path, sub)
    ensures Same(Exec(m, n, env, tr, fuel), Exec(m, n', env, tr, fuel))
    decreases fuel, n, 3, 0
  {
    if path != [] {
      hide Swap, ShapeOk, ExecShortCircuit, ExecIf, ExecKids, Iterate, ExecArms, Finish;
      SwapFacts(m, n, n', path, sub);
      if ShapeOk(n) {
        if ShortCircuit(n) {
          CongShortCircuit(m, n, n', path, sub, env, tr, fuel);
        } else if n.kind == IfStmt {
          CongIf(m, n, n', path, sub, env, tr, fuel);
        } else if n.kind == LoopStmt {
          CongLoop(m, n, n', path, sub, env, tr, fuel);
        } else if n.kind == MatchStmt {
          CongMatch(m, n, n', path, sub, env, tr, fuel);
        } else if IsPlain(n.kind) {
          CongPlain(m, n, n', path, sub, env, tr, fuel);
        }
      }
    }
  }

  lemma {:induction false} CongChild(m: Machine, n: Node, n': Node, path: seq<nat>, sub: Node, j: nat, env: Env,
                                     tr: Trace, fuel: nat)
    requires Swap(m, n, n', path, sub) && path != [] && j < |n.children|
    ensures j < |n'.children| && Same(Exec(m, n.children[j], env, tr, fuel), Exec(m, n'.children[j], env, tr, fuel))
    decreases fuel, n, 0, 0
  {
    hide Swap, Exec;
    SwapBelow(m, n, n', path, sub);
    if j == path[0] {
      Congruence(m, n.children[j], n'.children[j], path[1..], sub, env, tr, fuel);
    }
  }

  lemma {:induction false} CongShortCircuit(m: Machine, n: Node, n': Node, path: seq<nat>, sub: Node, env: Env,
                                            tr: Trace, fuel: nat)
    requires Swap(m, n, n', path, sub) && path != [] && ShapeOk(n) && ShortCircuit(n)
    ensures ShapeOk(n') && ShortCircuit(n')
    ensures Same(ExecShortCircuit(m, n, env, tr, fuel), ExecShortCircuit(m, n', env, tr, fuel))
    decreases fuel, n, 1, 0
  {
    hide Swap, Exec;
    SwapFacts(m, n, n', path, sub);
    CongChild(m, n, n', path, sub, 0, env, tr, fuel);
    match Exec(m, n.children[0], env, tr, fuel)
    case Done(_, env1, tr1) => CongChild(m, n, n', path, sub, 1, env1, tr1, fuel);
    case _ =>
  }

  lemma {:induction false} CongIf(m: Machine, n: Node, n': Node, path: seq<nat>, sub: Node, env: Env, tr: Trace,
                                  fuel: nat)
    requires Swap(m, n, n', path, sub) && path != [] && ShapeOk(n) && n.kind == IfStmt
    ensures ShapeOk(n') && n'.kind == IfStmt
    ensures Same(ExecIf(m, n, env, tr, fuel), ExecIf(m, n', env, tr, fuel))
    decreases fuel, n, 1, 0
  {
    hide Swap, Exec;
    SwapFacts(m, n, n', path, sub);
    CongChild(m, n, n', path, sub, 0, env, tr, fuel);
    match Exec(m, n.children[0], env, tr, fuel)
    case Done(_, env1, tr1) =>
      CongChild(m, n, n', path, sub, 1, env1, tr1, fuel);
      if |n.children| == 3 { CongChild(m, n, n', path, sub, 2, env1, tr1, fuel); }
    case _ =>
  }

  lemma {:induction false} CongLoop(m: Machine, n: Node, n': Node, path: seq<nat>, sub: Node, env: Env, tr: Trace,
                                    fuel: nat)
    requires Swap(m, n, n', path, sub) && path != [] && ShapeOk(n) && n.kind == LoopStmt
    ensures Same(Exec(m, n, env, tr, fuel), Exec(m, n', env, tr, fuel))
    decreases fuel, n, 2, 0
  {
    hide Swap, Iterate, ExecKids, ExecArms, Finish;
    SwapFacts(m, n, n', path, sub);
    if !IsWhile(n) { CongChild(m, n, n', path, sub, 0, env, tr, fuel); }
    match LoopStart(m, n, env, tr, fuel)
    case Done(_, env1, tr1) => CongIterate(m, n, n', path, sub, env1, tr1, fuel);
    case _ =>
  }

  lemma {:induction false} CongIterate(m: Machine, n: Node, n': Node, path: seq<nat>, sub: Node, env: Env, tr: Trace,
                                       fuel: nat)
    requires Swap(m, n, n', path, sub) && path != [] && ShapeOk(n) && n.kind == LoopStmt
    ensures ShapeOk(n') && n'.kind == LoopStmt
    ensures Same(Iterate(m, n, env, tr, fuel), Iterate(m, n', env, tr, fuel))
    decreases fuel, n, 1, 1
  {
    hide Swap, Exec, Round;
    SwapFacts(m, n, n', path, sub);
    CongChild(m, n, n', path, sub, CondAt(n), env, tr, fuel);
    match Exec(m, n.children[CondAt(n)], env, tr, fuel)
    case Done(_, env1, tr1) => CongRound(m, n, n', path, sub, env1, tr1, fuel);
    case _ =>
  }

  lemma {:induction false} CongRound(m: Machine, n: Node, n': Node, path: seq<nat>, sub: Node, env: Env, tr: Trace,
                                     fuel: nat)
    requires Swap(m, n, n', path, sub) && path != [] && ShapeOk(n) && n.kind == LoopStmt
    ensures ShapeOk(n') && n'.kind == LoopStmt
    ensures Same(Round(m, n, env, tr, fuel), Round(m, n', env, tr, fuel))
    decreases fuel, n, 1, 0
  {
    hide Swap, Exec, Iterate;
    SwapFacts(m, n, n', path, sub);
    CongChild(m, n, n', path, sub, BodyAt(n), env, tr, fuel);
    match Exec(m, n.children[BodyAt(n)], env, tr, fuel)
    case Done(_, env1, tr1) =>
      if !IsWhile(n) { CongChild(m, n, n', path, sub, 2, env1, tr1, fuel); }
      match LoopStep(m, n, env1, tr1, fuel) {
        case Done(_, env2, tr2) => if fuel > 0 { CongIterate(m, n, n', path, sub, env2, tr2, fuel - 1); }
        case _ =>
      }
    case _ =>
  }

  lemma {:induction false} CongMatch(m: Machine, n: Node, n': Node, path: seq<nat>, sub: Node, env: Env, tr: Trace,
                                     fuel: nat)
    requires Swap(m, n, n', path, sub) && path != [] && ShapeOk(n) && n.kind == MatchStmt
    ensures Same(Exec(m, n, env, tr, fuel), Exec(m, n', env, tr, fuel))
    decreases fuel, n, 2, 0
  {
    hide Swap, Iterate, ExecKids, ExecArms, Finish;
    SwapFacts(m, n, n', path, sub);
    CongChild(m, n, n', path, sub, 0, env, tr, fuel);
    match Exec(m, n.children[0], env, tr, fuel)
    case Done(v, env1, tr1) => CongArms(m, n, n', path, sub, 1, v, env1, tr1, fuel);
    case _ =>
  }

  predicate IsArm(n: Node) {
    n.kind == MatchArm && |n.children| == 3 && IsIdent(n.children[1])
  }

  /** Pattern and binder of an arm stay; its body runs alike. */
  lemma {:induction false} CongArm(m: Machine, n: Node, n': Node, path: seq<nat>, sub: Node, j: nat, env: Env,
                                   tr: Trace, fuel: nat)
    requires Swap(m, n, n', path, sub) && path != [] && 0 < j < |n.children| && n.children[j].kind == MatchArm
    ensures j < |n'.children| && IsArm(n'.children[j]) == IsArm(n.children[j])
    ensures IsArm(n.children[j]) ==>
              var arm, arm' := n.children[j], n'.children[j];
              && arm'.children[0].text == arm.children[0].text && arm'.children[1].text == arm.children[1].text
              && Same(Exec(m, arm.children[2], env, tr, fuel), Exec(m, arm'.children[2], env, tr, fuel))
    decreases fuel, n, 0, 1
  {
    SwapBelow(m, n, n', path, sub);
    if j == path[0] {
      assert path[1..] != [];
      hide Swap, Exec;
      SwapFacts(m, n.children[j], n'.children[j], path[1..], sub);
      if IsArm(n.children[j]) {
        CongChild(m, n.children[j], n'.children[j], path[1..], sub, 2, env, tr, fuel);
      }
    }
  }

  lemma {:induction false} CongArms(m: Machine, n: Node, n': Node, path: seq<nat>, sub: Node, j: nat, v: Value,
                                    env: Env, tr: Trace, fuel: nat)
    requires Swap(m, n, n', path, sub) && path != [] && 0 < j <= |n.children|
    ensures |n'.children| == |n.children|
    ensures Same(ExecArms(m, n, j, v, env, tr, fuel), ExecArms(m, n', j, v, env, tr, fuel))
    decreases fuel, n, 1, |n.children| - j
  {
    hide Swap, Exec;
    SwapFacts(m, n, n', path, sub);
    if j < |n.children| && IsArm(n.children[j]) {
      var arm := n.children[j];
      match m.matches(arm.children[0].text, v)
      case None =>
        CongArm(m, n, n', path, sub, j, env, tr, fuel);
        CongArms(m, n, n', path, sub, j + 1, v, env, tr, fuel);
      case Some(w) => CongArm(m, n, n', path, sub, j, env + [Slot(arm.children[1].text, w)], tr, fuel);
    }
  }

  lemma {:induction false} CongKids(m: Machine, n: Node, n': Node, path: seq<nat>, sub: Node, j: nat, hi: nat, env: Env,
                                    tr: Trace, fuel: nat)
    requires Swap(m, n, n', path, sub) && path != [] && j <= hi <= |n.children|
    ensures |n'.children| == |n.children|
    ensures SameKids(ExecKids(m, n, j, hi, env, tr, fuel), ExecKids(m, n', j, hi, env, tr, fuel))
    decreases fuel, n, 1, hi - j
  {
    hide Swap, Exec;
    SwapFacts(m, n, n', path, sub);
    if j < hi {
      CongChild(m, n, n', path, sub, j, env, tr, fuel);
      match Exec(m, n.children[j], env, tr, fuel)
      case Done(_, env1, tr1) => CongKids(m, n, n', path, sub, j + 1, hi, env1, tr1, fuel);
      case _ =>
    }
  }

  /** The final step of a plain node reads its kind, operator and text and its children's texts only. */
  lemma FinishReads(m: Machine, n: Node, n': Node, vs: seq<Value>, env: Env, tr: Trace)
    requires ShapeOk(n) && ShapeOk(n') && n'.kind == n.kind && n'.op == n.op && n'.text == n.text
             && |n'.children| == |n.children|
    requires forall j | 0 <= j < |n.children| :: n'.children[j].text == n.children[j].text
    ensures Finish(m, n, vs, env, tr) == Finish(m, n', vs, env, tr)
  {
    hide Update, Lookup, HasInterpFrom;
  }

  lemma {:induction false} CongPlain(m: Machine, n: Node, n': Node, path: seq<nat>, sub: Node, env: Env, tr: Trace,
                                     fuel: nat)
    requires Swap(m, n, n', path, sub) && path != [] && ShapeOk(n) && IsPlain(n.kind) && !IsControl(n)
    ensures Same(Exec(m, n, env, tr, fuel), Exec(m, n', env, tr, fuel))
    decreases fuel, n, 2, 0
  {
    hide Swap, ExecKids, Iterate, ExecArms, Finish, ShapeOk;
    SwapFacts(m, n, n', path, sub);
    CongKids(m, n, n', path, sub, EvalLo(n), EvalHi(n), env, tr, fuel);
    match ExecKids(m, n, EvalLo(n), EvalHi(n), env, tr, fuel)
    case Vals(vs, env1, tr1) => FinishReads(m, n, n', vs, env1, tr1);
    case Early(_) =>
  }

  /** How a statement list runs. */
  lemma BlockExec(m: Machine, n: Node, env: Env, tr: Trace, fuel: nat)
    requires n.kind == StmtList
    ensures var k := ExecKids(m, n, 0, |n.children|, env, tr, fuel);
            Exec(m, n, env, tr, fuel) == Leaving(if k.Vals? then Done(Last(k.vs), k.env, k.tr) else k.out, |env|)
  {
    hide ExecKids;
  }

  // ----- whole functions -----

  /** The part of a parameter that binding it looks at. */
  predicate SameParam(p: Node, p': Node) {
    && p'.kind == p.kind && |p'.children| == |p.children|
    && (|p.children| > 0 ==> p'.children[0].kind == p.children[0].kind && p'.children[0].text == p.children[0].text)
  }

  lemma {:induction false} ParamsSame(fn: Node, fn': Node, i: nat, args: seq<Value>)
    requires i <= |fn.children| == |fn'.children|
    requires forall j | 0 <= j < |fn.children| :: fn'.children[j].kind == fn.children[j].kind
    requires forall j | 0 <= j < |fn.children| && fn.children[j].kind == Param ::
               SameParam(fn.children[j], fn'.children[j])
    ensures ParamSlots(fn, i, args) == ParamSlots(fn', i, args)
    decreases |fn.children| - i
  {
    if i < |fn.children| {
      ParamsSame(fn, fn', i + 1, args);
      if args != [] { ParamsSame(fn, fn', i + 1, args[1..]); }
    }
  }

  lemma ParamKept(m: Machine, fn: Node, fn': Node, path: seq<nat>, sub: Node, j: nat)
    requires Swap(m, fn, fn', path, sub) && path != [] && j < |fn.children| && fn.children[j].kind == Param
    ensures j < |fn'.children| && SameParam(fn.children[j], fn'.children[j])
  {
    SwapBelow(m, fn, fn', path, sub);
    if j == path[0] {
      assert path[1..] != [];
      SwapFacts(m, fn.children[j], fn'.children[j], path[1..], sub);
    }
  }

  /** A function keeps its results and traces when one of its statement lists is replaced by a list that runs alike. */
  lemma RunCongruence(m: Machine, fn: Node, path: seq<nat>, sub: Node, args: seq<Value>, fuel: nat)
    requires ValidPath(fn, path) && Swap(m, fn, Replace(fn, path, sub), path, sub)
    ensures RunFn(m, fn, args, fuel) != Failed
            ==> RunFn(m, Replace(fn, path, sub), args, fuel) == RunFn(m, fn, args, fuel)
  {
    var fn' := Replace(fn, path, sub);
    if path != [] && RunFn(m, fn, args, fuel) != Failed {
      hide Swap, Exec, ParamSlots, SameParam, ShapeOk, Replace, ValidPath;
      SwapFacts(m, fn, fn', path, sub);
      forall j | 0 <= j < |fn.children| && fn.children[j].kind == Param
        ensures SameParam(fn.children[j], fn'.children[j])
      {
        ParamKept(m, fn, fn', path, sub, j);
      }
      ParamsSame(fn, fn', 0, args);
      CongChild(m, fn, fn', path, sub, |fn.children| - 1, ParamSlots(fn, 0, args).value, [], fuel);
    }
  }
}
