/** What running a node leaves alone: slots it does not write, and the values of pure expressions. */
module LintFrame {
  import opened Wrappers
  import Tokens
  import opened LintAst
  import opened LintSemantics

  // ----- what a run keeps -----

  /** Every slot of `env` is still there under its name, those whose names `e` mentions keep their
      values, and no new slot has a name that `e` mentions. */
  ghost predicate Keeps(env: Env, env': Env, e: Node) {
    && |env| <= |env'|
    && (forall j | 0 <= j < |env| :: env'[j].name == env[j].name)
    && (forall j | 0 <= j < |env| :: IdentUsedIn(e, env[j].name) ==> env'[j] == env[j])
    && (forall j | |env| <= j < |env'| :: !IdentUsedIn(e, env'[j].name))
  }

  ghost predicate OutKeeps(env: Env, o: Out, e: Node) {
    match o
    case Done(_, env', _) => Keeps(env, env', e)
    case Broke(env', _) => Keeps(env, env', e)
    case _ => true
  }

  ghost predicate KidsKeep(env: Env, o: KidsOut, e: Node) {
    match o
    case Vals(_, env', _) => Keeps(env, env', e)
    case Early(o) => OutKeeps(env, o, e)
  }

  lemma KeepsTrans(a: Env, b: Env, c: Env, e: Node)
    requires Keeps(a, b, e) && Keeps(b, c, e)
    ensures Keeps(a, c, e)
  {
    forall j | |a| <= j < |c| ensures !IdentUsedIn(e, c[j].name) {
      if j < |b| { assert c[j].name == b[j].name; }
    }
  }

  lemma OutKeepsTrans(a: Env, b: Env, o: Out, e: Node)
    requires Keeps(a, b, e) && OutKeeps(b, o, e)
    ensures OutKeeps(a, o, e)
  {
    match o
    case Done(_, c, _) => KeepsTrans(a, b, c, e);
    case Broke(c, _) => KeepsTrans(a, b, c, e);
    case _ =>
  }

  lemma {:induction false} UpdateAt(env: Env, name: string, v: Value)
    ensures Update(env, name, v).Some? ==>
              exists j :: 0 <= j < |env| && env[j].name == name && Update(env, name, v).value == env[j := Slot(name, v)]
  {
    if env != [] {
      var last := |env| - 1;
      if env[last].name != name {
        UpdateAt(env[..last], name, v);
        if Update(env[..last], name, v).Some? {
          var j :| 0 <= j < last && env[..last][j].name == name
                   && Update(env[..last], name, v).value == env[..last][j := Slot(name, v)];
          assert env[..last][j := Slot(name, v)] + [env[last]] == env[j := Slot(name, v)];
        }
      }
    }
  }

  lemma KeepsSelf(env: Env, e: Node)
    ensures Keeps(env, env, e)
  {}

  lemma AssignKeeps(env: Env, name: string, v: Value, e: Node)
    requires !IdentUsedIn(e, name)
    ensures Update(env, name, v).Some? ==> Keeps(env, Update(env, name, v).value, e)
  {
    UpdateAt(env, name, v);
  }

  /** Only bindings and assignments change the slots. */
  lemma FinishEnv(m: Machine, n: Node, vs: seq<Value>, env: Env, tr: Trace)
    requires ShapeOk(n) && !IsBinding(n.kind) && n.kind != AssignStmt
    ensures var o := Finish(m, n, vs, env, tr); (o.Done? ==> o.env == env) && (o.Broke? ==> o.env == env)
  {
    hide Lookup, HasInterpFrom, Update, ShapeOk;
  }

  lemma FinishKeeps(m: Machine, n: Node, vs: seq<Value>, env: Env, tr: Trace, e: Node)
    requires ShapeOk(n) && !StmtWritesIdentOf(n, e)
    ensures OutKeeps(env, Finish(m, n, vs, env, tr), e)
  {
    hide Update, Lookup, HasInterpFrom, IdentUsedIn;
    if n.kind == AssignStmt {
      AssignKeeps(env, n.children[0].text, Last(vs), e);
    } else if IsBinding(n.kind) {
      assert !IdentUsedIn(e, n.children[0].text);
    } else {
      hide Keeps, Finish;
      FinishEnv(m, n, vs, env, tr);
      KeepsSelf(env, e);
    }
  }

  /** Dropping a block's slots keeps what the block kept. */
  lemma LeavingKeeps(env: Env, inner: Env, o: Out, e: Node)
    requires |env| <= |inner| && inner[..|env|] == env && OutKeeps(inner, o, e)
    ensures OutKeeps(env, Leaving(o, |env|), e)
  {
    match o
    case Done(_, env', _) =>
      var t := Trunc(env', |env|);
      forall j | 0 <= j < |env| ensures t[j].name == env[j].name && (IdentUsedIn(e, env[j].name) ==> t[j] == env[j]) {
        assert inner[..|env|][j] == inner[j];
      }
    case Broke(env', _) =>
      var t := Trunc(env', |env|);
      forall j | 0 <= j < |env| ensures t[j].name == env[j].name && (IdentUsedIn(e, env[j].name) ==> t[j] == env[j]) {
        assert inner[..|env|][j] == inner[j];
      }
    case _ =>
  }

  /** Frame lemma: a node that neither binds nor assigns a name `e` mentions keeps all those names. */
  lemma {:induction false} ExecKeeps(m: Machine, n: Node, env: Env, tr: Trace, fuel: nat, e: Node)
    requires !StmtWritesIdentOf(n, e)
    ensures OutKeeps(env, Exec(m, n, env, tr, fuel), e)
    decreases fuel, n, 2, 0
  {
    if !ShapeOk(n) {
    } else if ShortCircuit(n) || n.kind == IfStmt {
      ExecBranchKeeps(m, n, env, tr, fuel, e);
    } else if n.kind == LoopStmt {
      if !IsWhile(n) { ExecKeeps(m, n.children[0], env, tr, fuel, e); } else { KeepsSelf(env, e); }
      match LoopStart(m, n, env, tr, fuel)
      case Done(_, env1, tr1) =>
        IterateKeeps(m, n, env1, tr1, fuel, e);
        OutKeepsTrans(env, env1, Iterate(m, n, env1, tr1, fuel), e);
        LeavingKeeps(env, env, Iterate(m, n, env1, tr1, fuel), e);
      case _ =>
    } else if n.kind == MatchStmt {
      ExecKeeps(m, n.children[0], env, tr, fuel, e);
      match Exec(m, n.children[0], env, tr, fuel)
      case Done(v, env1, tr1) =>
        ExecArmsKeeps(m, n, 1, v, env1, tr1, fuel, e);
        OutKeepsTrans(env, env1, ExecArms(m, n, 1, v, env1, tr1, fuel), e);
      case _ =>
    } else if IsPlain(n.kind) {
      ExecKidsKeeps(m, n, EvalLo(n), EvalHi(n), env, tr, fuel, e);
      match ExecKids(m, n, EvalLo(n), EvalHi(n), env, tr, fuel)
      case Vals(vs, env1, tr1) =>
        FinishKeeps(m, n, vs, env1, tr1, e);
        OutKeepsTrans(env, env1, Finish(m, n, vs, env1, tr1), e);
        LeavingKeeps(env, env, Finish(m, n, vs, env1, tr1), e);
      case Early(o) => LeavingKeeps(env, env, o, e);
    }
  }

  lemma {:induction false} ExecBranchKeeps(m: Machine, n: Node, env: Env, tr: Trace, fuel: nat, e: Node)
    requires ShapeOk(n) && (ShortCircuit(n) || n.kind == IfStmt) && !StmtWritesIdentOf(n, e)
    ensures OutKeeps(env, Exec(m, n, env, tr, fuel), e)
    decreases fuel, n, 1, 0
  {
    ExecKeeps(m, n.children[0], env, tr, fuel, e);
    match Exec(m, n.children[0], env, tr, fuel)
    case Done(v, env1, tr1) =>
      forall i | 1 <= i < |n.children| ensures OutKeeps(env, Exec(m, n.children[i], env1, tr1, fuel), e) {
        ExecKeeps(m, n.children[i], env1, tr1, fuel, e);
        OutKeepsTrans(env, env1, Exec(m, n.children[i], env1, tr1, fuel), e);
      }
    case _ =>
  }

  lemma {:induction false} ExecKidsKeeps(m: Machine, n: Node, i: nat, hi: nat, env: Env, tr: Trace, fuel: nat, e: Node)
    requires i <= hi <= |n.children| && !StmtWritesIdentOf(n, e)
    ensures KidsKeep(env, ExecKids(m, n, i, hi, env, tr, fuel), e)
    decreases fuel, n, 1, hi - i
  {
    if i < hi {
      ExecKeeps(m, n.children[i], env, tr, fuel, e);
      match Exec(m, n.children[i], env, tr, fuel)
      case Done(_, env1, tr1) =>
        ExecKidsKeeps(m, n, i + 1, hi, env1, tr1, fuel, e);
        match ExecKids(m, n, i + 1, hi, env1, tr1, fuel) {
          case Vals(_, env2, _) => KeepsTrans(env, env1, env2, e);
          case Early(o) => OutKeepsTrans(env, env1, o, e);
        }
      case _ =>
    }
  }

  lemma {:induction false} IterateKeeps(m: Machine, n: Node, env: Env, tr: Trace, fuel: nat, e: Node)
    requires ShapeOk(n) && n.kind == LoopStmt && !StmtWritesIdentOf(n, e)
    ensures OutKeeps(env, Iterate(m, n, env, tr, fuel), e)
    decreases fuel, n, 1, 1
  {
    var cond := n.children[CondAt(n)];
    ExecKeeps(m, cond, env, tr, fuel, e);
    match Exec(m, cond, env, tr, fuel)
    case Done(v, env1, tr1) =>
      if m.truth(v) == Some(true) {
        RoundKeeps(m, n, env1, tr1, fuel, e);
        OutKeepsTrans(env, env1, Round(m, n, env1, tr1, fuel), e);
      }
    case _ =>
  }

  lemma {:induction false} RoundKeeps(m: Machine, n: Node, env: Env, tr: Trace, fuel: nat, e: Node)
    requires ShapeOk(n) && n.kind == LoopStmt && !StmtWritesIdentOf(n, e)
    ensures OutKeeps(env, Round(m, n, env, tr, fuel), e)
    decreases fuel, n, 1, 0
  {
    var body := n.children[BodyAt(n)];
    ExecKeeps(m, body, env, tr, fuel, e);
    match Exec(m, body, env, tr, fuel)
    case Done(_, env1, tr1) =>
      if !IsWhile(n) { ExecKeeps(m, n.children[2], env1, tr1, fuel, e); } else { KeepsSelf(env1, e); }
      var step := LoopStep(m, n, env1, tr1, fuel);
      OutKeepsTrans(env, env1, step, e);
      match step {
        case Done(_, env2, tr2) =>
          if fuel > 0 {
            IterateKeeps(m, n, env2, tr2, fuel - 1, e);
            OutKeepsTrans(env, env2, Iterate(m, n, env2, tr2, fuel - 1), e);
          }
        case _ =>
      }
    case _ =>
  }

  lemma {:induction false} ExecArmsKeeps(m: Machine, n: Node, i: nat, v: Value, env: Env, tr: Trace, fuel: nat, e: Node)
    requires 0 < i <= |n.children| && !StmtWritesIdentOf(n, e)
    ensures OutKeeps(env, ExecArms(m, n, i, v, env, tr, fuel), e)
    decreases fuel, n, 1, |n.children| - i
  {
    if i < |n.children| {
      var arm := n.children[i];
      if arm.kind == MatchArm && |arm.children| == 3 && IsIdent(arm.children[1]) {
        match m.matches(arm.children[0].text, v)
        case None => ExecArmsKeeps(m, n, i + 1, v, env, tr, fuel, e);
        case Some(w) =>
          var inner := env + [Slot(arm.children[1].text, w)];
          assert !StmtWritesIdentOf(arm, e);
          ExecKeeps(m, arm.children[2], inner, tr, fuel, e);
          LeavingKeeps(env, inner, Exec(m, arm.children[2], inner, tr, fuel), e);
      }
    }
  }

  // ----- pure expressions -----

  /** The value of a pure expression: it reads locals only. */
  function PureVal(m: Machine, n: Node, env: Env): Option<Value>
    requires IsPureExpr(n)
  {
    if !ShapeOk(n) then None
    else if n.kind == Ident then Or(Lookup(env, n.text), m.global(n.text))
    else if n.kind == IntLit || n.kind == FloatLit || n.kind == BoolLit || n.kind == StrLit then m.leaf(n.kind, n.text)
    else
      match PureVal(m, n.children[0], env)
      case None => None
      case Some(v) =>
        if ShortCircuit(n) then
          match m.truth(v)
          case None => None
          case Some(b) => if b == (n.op == Tokens.Or) then Some(v) else PureVal(m, n.children[1], env)
        else if n.kind == BinaryExpr || n.kind == IndexExpr then
          match PureVal(m, n.children[1], env)
          case None => None
          case Some(w) => m.prim(n.kind, n.op, Label(n), [v, w])
        else m.prim(n.kind, n.op, Label(n), [v])
  }

  /** How a plain node runs. */
  lemma PlainExec(m: Machine, n: Node, env: Env, tr: Trace, fuel: nat)
    requires ShapeOk(n) && IsPlain(n.kind) && !IsControl(n) && !IsBlock(n.kind)
    ensures Exec(m, n, env, tr, fuel) ==
            match ExecKids(m, n, EvalLo(n), EvalHi(n), env, tr, fuel)
            case Vals(vs, env1, tr1) => Finish(m, n, vs, env1, tr1)
            case Early(o) => o
  {
    hide ExecKids, Finish, ShapeOk, EvalLo, EvalHi;
  }

  /** Running a pure expression changes nothing, and yields its value or faults. */
  lemma {:induction false} PureExec(m: Machine, n: Node, env: Env, tr: Trace, fuel: nat)
    requires IsPureExpr(n)
    ensures Exec(m, n, env, tr, fuel) == Yield(PureVal(m, n, env), env, tr)
    decreases n
  {
    if ShapeOk(n) {
      if EvalHi(n) == 0 {
        hide Exec, Lookup;
        PlainExec(m, n, env, tr, fuel);
      } else {
        hide ExecKids, Finish;
        PureExec(m, n.children[0], env, tr, fuel);
        if n.kind == BinaryExpr || n.kind == IndexExpr {
          PureExec(m, n.children[1], env, tr, fuel);
        }
        if !ShortCircuit(n) {
          hide Exec, PureVal;
          PureKids(m, n, env, tr, fuel);
        }
      }
    }
  }

  lemma TwoKids(m: Machine, n: Node, env: Env, tr: Trace, fuel: nat, a: Option<Value>, b: Option<Value>)
    requires |n.children| == 2 && Exec(m, n.children[0], env, tr, fuel) == Yield(a, env, tr)
    requires Exec(m, n.children[1], env, tr, fuel) == Yield(b, env, tr)
    ensures ExecKids(m, n, 0, 2, env, tr, fuel) ==
            if a.None? || b.None? then Early(Fault) else Vals([a.value, b.value], env, tr)
  {
    hide Exec;
    assert ExecKids(m, n, 2, 2, env, tr, fuel) == Vals([], env, tr);
    if a.Some? && b.Some? { assert [a.value] + [b.value] == [a.value, b.value]; }
  }

  lemma OneKid(m: Machine, n: Node, i: nat, env: Env, tr: Trace, fuel: nat, a: Option<Value>)
    requires i < |n.children| && Exec(m, n.children[i], env, tr, fuel) == Yield(a, env, tr)
    ensures ExecKids(m, n, i, i + 1, env, tr, fuel) == if a.None? then Early(Fault) else Vals([a.value], env, tr)
  {
    hide Exec;
    assert ExecKids(m, n, i + 1, i + 1, env, tr, fuel) == Vals([], env, tr);
  }

  lemma PureKids(m: Machine, n: Node, env: Env, tr: Trace, fuel: nat)
    requires IsPureExpr(n) && ShapeOk(n) && EvalHi(n) > 0 && !ShortCircuit(n)
    requires Exec(m, n.children[0], env, tr, fuel) == Yield(PureVal(m, n.children[0], env), env, tr)
    requires n.kind == BinaryExpr || n.kind == IndexExpr ==>
               Exec(m, n.children[1], env, tr, fuel) == Yield(PureVal(m, n.children[1], env), env, tr)
    ensures Exec(m, n, env, tr, fuel) == Yield(PureVal(m, n, env), env, tr)
  {
    hide Exec, ExecKids;
    PlainExec(m, n, env, tr, fuel);
    if EvalHi(n) == 1 {
      OneKid(m, n, 0, env, tr, fuel, PureVal(m, n.children[0], env));
    } else {
      TwoKids(m, n, env, tr, fuel, PureVal(m, n.children[0], env), PureVal(m, n.children[1], env));
    }
  }

  ghost predicate Agree(n: Node, env: Env, env': Env) {
    forall y :: IdentUsedIn(n, y) ==> Lookup(env, y) == Lookup(env', y)
  }

  lemma AgreeKid(n: Node, env: Env, env': Env, j: nat)
    requires Agree(n, env, env') && j < |n.children|
    ensures Agree(n.children[j], env, env')
  {
    forall y | IdentUsedIn(n.children[j], y) ensures Lookup(env, y) == Lookup(env', y) {
      assert IdentUsedIn(n, y);
    }
  }

  /** A pure expression has the same value wherever the names it mentions do. */
  lemma {:induction false} PureAgree(m: Machine, n: Node, env: Env, env': Env)
    requires IsPureExpr(n) && Agree(n, env, env')
    ensures PureVal(m, n, env) == PureVal(m, n, env')
  {
    hide Lookup;
    if ShapeOk(n) {
      if n.kind == Ident {
        assert IdentUsedIn(n, n.text);
      } else if EvalHi(n) > 0 {
        hide Agree, ShapeOk;
        AgreeKid(n, env, env', 0);
        PureAgree(m, n.children[0], env, env');
        if n.kind == BinaryExpr || n.kind == IndexExpr {
          AgreeKid(n, env, env', 1);
          PureAgree(m, n.children[1], env, env');
        }
      }
    }
  }

  lemma {:induction false} KeepsLookup(env: Env, env': Env, e: Node, y: string)
    requires Keeps(env, env', e) && IdentUsedIn(e, y)
    ensures Lookup(env, y) == Lookup(env', y)
    decreases |env'|
  {
    if |env'| > |env| {
      KeepsLookup(env, env'[..|env'| - 1], e, y);
    } else if env' != [] {
      var last := |env| - 1;
      assert env'[last].name == env[last].name;
      if env[last].name != y {
        KeepsLookup(env[..last], env'[..last], e, y);
      }
    }
  }

  lemma PureKept(m: Machine, e: Node, env: Env, env': Env)
    requires IsPureExpr(e) && Keeps(env, env', e)
    ensures PureVal(m, e, env') == PureVal(m, e, env)
  {
    forall y | IdentUsedIn(e, y) ensures Lookup(env, y) == Lookup(env', y) {
      KeepsLookup(env, env', e, y);
    }
    PureAgree(m, e, env, env');
  }
}
