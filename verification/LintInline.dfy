/**
 Inlining a single-use `let` preserves meaning (`check_single_use_let`).

 The original run carries one slot more than the rewritten one: the slot of the inlined name.  The
 simulation below shows that a run with the slot and a run of the substituted code without it stay
 in step, as long as the initialiser keeps its value up to the use.
 */
module LintInline {
  import opened Wrappers
  import opened LintAst
  import opened LintSemantics
  import opened LintFrame

  // ----- environments with one extra slot -----

  /** `env` with a slot added below position `k` (or on top, when there are fewer slots). */
  function Ins(env: Env, k: nat, x: string, v: Value): Env {
    if k <= |env| then env[..k] + [Slot(x, v)] + env[k..] else env + [Slot(x, v)]
  }

  /** No slot from position `k` up is called `x`. */
  predicate FreeAbove(env: Env, k: nat, x: string) {
    forall j | k <= j < |env| :: env[j].name != x
  }

  lemma {:induction false} InsLookup(env: Env, k: nat, x: string, v: Value, y: string)
    requires k <= |env| && FreeAbove(env, k, x)
    ensures Lookup(Ins(env, k, x, v), y) == if y == x then Some(v) else Lookup(env, y)
    decreases |env|
  {
    var big := Ins(env, k, x, v);
    if k == |env| {
      assert big[..|env|] == env;
    } else {
      var last := |env| - 1;
      assert big[..|env|] == Ins(env[..last], k, x, v);
      InsLookup(env[..last], k, x, v, y);
    }
  }

  lemma UpdateTop(env: Env, s: Slot, y: string, w: Value)
    ensures Update(env + [s], y, w) ==
            if s.name == y then Some(env + [Slot(y, w)])
            else if Update(env, y, w).None? then None
            else Some(Update(env, y, w).value + [s])
  {
    var big := env + [s];
    assert big[..|big| - 1] == env;
    assert big[|env| := Slot(y, w)] == env + [Slot(y, w)];
  }

  lemma InsTop(env: Env, k: nat, x: string, v: Value)
    requires k >= |env|
    ensures Ins(env, k, x, v) == env + [Slot(x, v)]
  {}

  lemma {:induction false} InsUpdate(env: Env, k: nat, x: string, v: Value, y: string, w: Value)
    requires k <= |env| && y != x
    ensures Update(Ins(env, k, x, v), y, w) ==
            if Update(env, y, w).None? then None else Some(Ins(Update(env, y, w).value, k, x, v))
    decreases |env|
  {
    hide Update, Ins;
    if k == |env| {
      InsTop(env, k, x, v);
      UpdateTop(env, Slot(x, v), y, w);
      if Update(env, y, w).Some? { InsTop(Update(env, y, w).value, k, x, v); }
    } else {
      var front, s := env[..|env| - 1], env[|env| - 1];
      assert env == front + [s];
      InsPush(front, k, x, v, s);
      UpdateTop(Ins(front, k, x, v), s, y, w);
      UpdateTop(front, s, y, w);
      InsUpdate(front, k, x, v, y, w);
      InsPush(front, k, x, v, Slot(y, w));
      if Update(front, y, w).Some? { InsPush(Update(front, y, w).value, k, x, v, s); }
    }
  }

  lemma InsTrunc(env: Env, k: nat, x: string, v: Value, n: nat)
    requires k <= |env| && k <= n
    ensures k <= |Trunc(env, n)| && Trunc(Ins(env, k, x, v), n + 1) == Ins(Trunc(env, n), k, x, v)
  {}

  lemma InsPush(env: Env, k: nat, x: string, v: Value, s: Slot)
    requires k <= |env|
    ensures Ins(env, k, x, v) + [s] == Ins(env + [s], k, x, v)
  {}

  // ----- substitution -----

  /** `n` with every reference to `x` replaced by `init`. */
  function Subst(n: Node, pk: Kind, idx: nat, x: string, init: Node): Node
    decreases n
  {
    if n.kind == Ident then if NameIs(n, x) && RoleAt(pk, idx) == Reference then init else n
    else n.(children := seq(|n.children|, j requires 0 <= j < |n.children| => Subst(n.children[j], n.kind, j, x, init)))
  }

  /** `x` is bound and assigned nowhere below `n`. */
  predicate Clean(n: Node, pk: Kind, idx: nat, x: string) {
    var c := Refs(n, pk, idx, x);
    c.binds == 0 && c.writes == 0
  }

  /** No reference to `x` lies under a construct that re-evaluates, captures or rebinds. */
  predicate SafeRefs(n: Node, pk: Kind, idx: nat, x: string)
    decreases n
  {
    || Refs(n, pk, idx, x).astRefs == 0
    || n.kind == Ident
    || (!UnsafeKind(n.kind) && forall j | 0 <= j < |n.children| :: SafeRefs(n.children[j], n.kind, j, x))
  }

  /** The census of a node covers each child. */
  lemma {:induction false} KidCount(n: Node, i: nat, j: nat, x: string)
    requires i <= j < |n.children|
    ensures var c, k := Refs(n.children[j], n.kind, j, x), RefKids(n, i, x);
            c.astRefs <= k.astRefs && c.binds <= k.binds && c.writes <= k.writes
    decreases j - i
  {
    hide Refs;
    if i < j { KidCount(n, i + 1, j, x); }
  }

  predicate HasKids(n: Node) {
    n.kind != Ident
  }

  /** What the simulation asks of a node: with `live`, references to `x` may occur and the value of
      `init` is still the one in the slot; without, `x` does not occur at all. */
  predicate Ready(n: Node, pk: Kind, idx: nat, x: string, init: Node, live: bool) {
    && Clean(n, pk, idx, x)
    && if live then SafeRefs(n, pk, idx, x) && !StmtWritesIdentOf(n, init) else Refs(n, pk, idx, x).astRefs == 0
  }

  lemma ReadyKid(n: Node, pk: Kind, idx: nat, x: string, init: Node, live: bool, j: nat)
    requires Ready(n, pk, idx, x, init, live) && HasKids(n) && j < |n.children|
    requires live ==> !UnsafeKind(n.kind)
    ensures Ready(n.children[j], n.kind, j, x, init, live)
  {
    KidCount(n, 0, j, x);
  }

  /** Below a loop or a match the use cannot lie, so the node is ready without it. */
  lemma ReadyDead(n: Node, pk: Kind, idx: nat, x: string, init: Node, live: bool)
    requires Ready(n, pk, idx, x, init, live) && UnsafeKind(n.kind)
    ensures Ready(n, pk, idx, x, init, false)
  {}

  // ----- the relation between the two runs -----

  /** One inlining: the name, its initialiser, the value it has and the position of its slot. */
  datatype Inlining = Inlining(m: Machine, x: string, init: Node, v: Value, k: nat) {
    function Big(env: Env): Env { Ins(env, k, x, v) }
    function Sub(n: Node, pk: Kind, idx: nat): Node { Subst(n, pk, idx, x, init) }
  }

  ghost predicate RelEnv(c: Inlining, env: Env, env': Env) {
    c.k <= |env'| && env == c.Big(env') && FreeAbove(env', c.k, c.x)
  }

  /** The rewritten run ends like the original one, except for the slot; a faulting original run
      puts no demand on it. */
  ghost predicate RelOut(c: Inlining, o: Out, o': Out) {
    match o
    case Fault => true
    case Done(w, env, tr) => o'.Done? && o'.v == w && o'.tr == tr && RelEnv(c, env, o'.env)
    case Broke(env, tr) => o'.Broke? && o'.tr == tr && RelEnv(c, env, o'.env)
    case Returned(_, _) => o' == o
    case Timeout(_) => o' == o
  }

  ghost predicate RelKids(c: Inlining, o: KidsOut, o': KidsOut) {
    match o
    case Vals(vs, env, tr) => o'.Vals? && o'.vs == vs && o'.tr == tr && RelEnv(c, env, o'.env)
    case Early(out) => out.Fault? || (o'.Early? && RelOut(c, out, o'.out))
  }

  /** What the simulation starts from: the rewritten run's locals `env` and a node ready for it. */
  ghost predicate Pre(c: Inlining, n: Node, pk: Kind, idx: nat, env: Env, live: bool) {
    && c.x != "" && c.k <= |env| && FreeAbove(env, c.k, c.x)
    && IsPureExpr(c.init) && !IdentUsedIn(c.init, c.x)
    && Ready(n, pk, idx, c.x, c.init, live)
    && (live ==> PureVal(c.m, c.init, c.Big(env)) == Some(c.v))
  }

  lemma PreKid(c: Inlining, n: Node, pk: Kind, idx: nat, env: Env, live: bool, j: nat)
    requires Pre(c, n, pk, idx, env, live) && HasKids(n) && j < |n.children|
    requires live ==> !UnsafeKind(n.kind)
    ensures Pre(c, n.children[j], n.kind, j, env, live)
  {
    hide Refs, SafeRefs, StmtWritesIdentOf, IsPureExpr, PureVal, Ins;
    ReadyKid(n, pk, idx, c.x, c.init, live, j);
  }

  lemma PreDead(c: Inlining, n: Node, pk: Kind, idx: nat, env: Env, live: bool)
    requires Pre(c, n, pk, idx, env, live) && UnsafeKind(n.kind)
    ensures Pre(c, n, pk, idx, env, false)
  {
    hide Refs, StmtWritesIdentOf, IsPureExpr, PureVal, Ins;
    ReadyDead(n, pk, idx, c.x, c.init, live);
  }

  /** After child `j` the rest of the node is still ready: the initialiser kept its value. */
  lemma PreAfter(c: Inlining, n: Node, pk: Kind, idx: nat, env: Env, live: bool, j: nat, tr: Trace, fuel: nat, o': Out)
    requires Pre(c, n, pk, idx, env, live) && j < |n.children|
    requires Exec(c.m, n.children[j], c.Big(env), tr, fuel).Done?
    requires RelOut(c, Exec(c.m, n.children[j], c.Big(env), tr, fuel), o')
    ensures Pre(c, n, pk, idx, o'.env, live) && Exec(c.m, n.children[j], c.Big(env), tr, fuel).env == c.Big(o'.env)
  {
    hide Refs, SafeRefs, IsPureExpr, PureVal, Ins, Exec, FreeAbove;
    if live {
      ExecKeeps(c.m, n.children[j], c.Big(env), tr, fuel, c.init);
      PureKept(c.m, c.init, c.Big(env), Exec(c.m, n.children[j], c.Big(env), tr, fuel).env);
    }
  }

  lemma LeavingRel(c: Inlining, o: Out, o': Out, n: nat)
    requires RelOut(c, o, o') && c.k <= n
    ensures RelOut(c, Leaving(o, n + 1), Leaving(o', n))
  {
    match o
    case Done(_, _, _) => InsTrunc(o'.env, c.k, c.x, c.v, n);
    case Broke(_, _) => InsTrunc(o'.env, c.k, c.x, c.v, n);
    case _ =>
  }

  // ----- simulation -----

  lemma SubShape(c: Inlining, n: Node, pk: Kind, idx: nat)
    requires HasKids(n)
    ensures var s := c.Sub(n, pk, idx);
            && s.kind == n.kind && s.op == n.op && s.text == n.text && |s.children| == |n.children|
            && (forall j | 0 <= j < |n.children| :: s.children[j] == c.Sub(n.children[j], n.kind, j))
            && (ShapeOk(n) ==> ShapeOk(s) && EvalLo(s) == EvalLo(n) && EvalHi(s) == EvalHi(n))
  {
    var s := c.Sub(n, pk, idx);
    assert forall j | 0 <= j < |n.children| :: s.children[j] == c.Sub(n.children[j], n.kind, j);
    forall j | 0 <= j < |n.children|
      ensures RoleAt(n.kind, j) != Reference ==> IsIdent(n.children[j]) ==> s.children[j] == n.children[j]
      ensures n.children[j].kind != Ident ==> s.children[j].kind != Ident
    {
      SubKid(c, n.children[j], n.kind, j);
    }
    hide Subst;
  }

  lemma SubKid(c: Inlining, n: Node, pk: Kind, idx: nat)
    ensures RoleAt(pk, idx) != Reference && IsIdent(n) ==> c.Sub(n, pk, idx) == n
    ensures n.kind != Ident ==> c.Sub(n, pk, idx).kind == n.kind && c.Sub(n, pk, idx).text == n.text
  {}

  lemma BigLen(c: Inlining, env: Env)
    ensures |c.Big(env)| == |env| + 1
  {}

  /** A clean node does not bind or assign `x` itself. */
  lemma HeadNotX(c: Inlining, n: Node, pk: Kind, idx: nat)
    requires ShapeOk(n) && (IsBinding(n.kind) || n.kind == AssignStmt) && Clean(n, pk, idx, c.x)
    ensures n.children[0].text != c.x && c.Sub(n, pk, idx).children[0] == n.children[0]
  {
    KidCount(n, 0, 0, c.x);
    SubShape(c, n, pk, idx);
    SubKid(c, n.children[0], n.kind, 0);
    hide Subst;
  }

  lemma FinishBind(c: Inlining, n: Node, pk: Kind, idx: nat, vs: seq<Value>, env: Env, tr: Trace)
    requires ShapeOk(n) && IsBinding(n.kind) && Clean(n, pk, idx, c.x) && c.k <= |env| && FreeAbove(env, c.k, c.x)
    ensures ShapeOk(c.Sub(n, pk, idx))
    ensures RelOut(c, Finish(c.m, n, vs, c.Big(env), tr), Finish(c.m, c.Sub(n, pk, idx), vs, env, tr))
  {
    hide Ins, Refs, Subst;
    SubShape(c, n, pk, idx);
    HeadNotX(c, n, pk, idx);
    InsPush(env, c.k, c.x, c.v, Slot(n.children[0].text, Last(vs)));
  }

  lemma FinishAssign(c: Inlining, n: Node, pk: Kind, idx: nat, vs: seq<Value>, env: Env, tr: Trace)
    requires ShapeOk(n) && n.kind == AssignStmt && Clean(n, pk, idx, c.x) && c.k <= |env| && FreeAbove(env, c.k, c.x)
    ensures ShapeOk(c.Sub(n, pk, idx))
    ensures RelOut(c, Finish(c.m, n, vs, c.Big(env), tr), Finish(c.m, c.Sub(n, pk, idx), vs, env, tr))
  {
    hide Ins, Refs, Subst, Update;
    SubShape(c, n, pk, idx);
    HeadNotX(c, n, pk, idx);
    var y := n.children[0].text;
    InsUpdate(env, c.k, c.x, c.v, y, Last(vs));
    UpdateAt(env, y, Last(vs));
  }

  lemma FinishRel(c: Inlining, n: Node, pk: Kind, idx: nat, vs: seq<Value>, env: Env, tr: Trace)
    requires ShapeOk(n) && HasKids(n) && Clean(n, pk, idx, c.x) && c.k <= |env| && FreeAbove(env, c.k, c.x)
    ensures ShapeOk(c.Sub(n, pk, idx))
    ensures RelOut(c, Finish(c.m, n, vs, c.Big(env), tr), Finish(c.m, c.Sub(n, pk, idx), vs, env, tr))
  {
    hide Ins, Refs, Update, Lookup, Subst;
    if IsBinding(n.kind) {
      FinishBind(c, n, pk, idx, vs, env, tr);
    } else if n.kind == AssignStmt {
      FinishAssign(c, n, pk, idx, vs, env, tr);
    } else {
      SubShape(c, n, pk, idx);
      if |n.children| >= 2 { SubKid(c, n.children[1], n.kind, 1); }
    }
  }

  lemma LeafSim(c: Inlining, n: Node, pk: Kind, idx: nat, env: Env, tr: Trace, fuel: nat, live: bool)
    requires !HasKids(n) && RoleAt(pk, idx) == Reference && Pre(c, n, pk, idx, env, live)
    ensures RelOut(c, Exec(c.m, n, c.Big(env), tr, fuel), Exec(c.m, c.Sub(n, pk, idx), env, tr, fuel))
  {
    hide Pre, Exec;
    if NameIs(n, c.x) {
      UseSim(c, n, pk, idx, env, tr, fuel, live);
    } else {
      NameSim(c, n, pk, idx, env, tr, fuel, live);
    }
  }

  lemma NameSim(c: Inlining, n: Node, pk: Kind, idx: nat, env: Env, tr: Trace, fuel: nat, live: bool)
    requires n.kind == Ident && !NameIs(n, c.x) && Pre(c, n, pk, idx, env, live)
    ensures RelOut(c, Exec(c.m, n, c.Big(env), tr, fuel), Exec(c.m, n, env, tr, fuel))
  {
    hide Ins, Lookup, Exec, Refs, SafeRefs, StmtWritesIdentOf;
    InsLookup(env, c.k, c.x, c.v, n.text);
    PureExec(c.m, n, c.Big(env), tr, fuel);
    PureExec(c.m, n, env, tr, fuel);
  }

  /** At the use, the slot's value is the value of the initialiser. */
  lemma UseSim(c: Inlining, n: Node, pk: Kind, idx: nat, env: Env, tr: Trace, fuel: nat, live: bool)
    requires NameIs(n, c.x) && RoleAt(pk, idx) == Reference && Pre(c, n, pk, idx, env, live)
    ensures RelOut(c, Exec(c.m, n, c.Big(env), tr, fuel), Exec(c.m, c.init, env, tr, fuel))
  {
    assert live;
    InsLookup(env, c.k, c.x, c.v, n.text);
    assert Agree(c.init, env, c.Big(env)) by {
      forall y | IdentUsedIn(c.init, y) ensures Lookup(env, y) == Lookup(c.Big(env), y) {
        InsLookup(env, c.k, c.x, c.v, y);
      }
    }
    PureAgree(c.m, c.init, env, c.Big(env));
    PureExec(c.m, c.init, env, tr, fuel);
    PureExec(c.m, n, c.Big(env), tr, fuel);
    hide Ins, Lookup, PureVal, Exec;
  }

  lemma {:induction false} Sim(c: Inlining, n: Node, pk: Kind, idx: nat, env: Env, tr: Trace, fuel: nat, live: bool)
    requires RoleAt(pk, idx) == Reference && Pre(c, n, pk, idx, env, live)
    ensures RelOut(c, Exec(c.m, n, c.Big(env), tr, fuel), Exec(c.m, c.Sub(n, pk, idx), env, tr, fuel))
    decreases fuel, n, 2, 0
  {
    hide Pre, ShapeOk, Ins, Subst, RelEnv;
    if !HasKids(n) {
      LeafSim(c, n, pk, idx, env, tr, fuel, live);
    } else if ShapeOk(n) {
      SubShape(c, n, pk, idx);
      if ShortCircuit(n) {
        SimShortCircuit(c, n, pk, idx, env, tr, fuel, live);
      } else if n.kind == IfStmt {
        SimIf(c, n, pk, idx, env, tr, fuel, live);
      } else if n.kind == LoopStmt {
        PreDead(c, n, pk, idx, env, live);
        SimLoop(c, n, pk, idx, env, tr, fuel);
      } else if n.kind == MatchStmt {
        PreDead(c, n, pk, idx, env, live);
        SimMatch(c, n, pk, idx, env, tr, fuel);
      } else if IsPlain(n.kind) {
        SimPlain(c, n, pk, idx, env, tr, fuel, live);
      }
    }
  }

  lemma {:induction false} SimPlain(c: Inlining, n: Node, pk: Kind, idx: nat, env: Env, tr: Trace, fuel: nat,
                                    live: bool)
    requires HasKids(n) && ShapeOk(n) && IsPlain(n.kind) && !IsControl(n) && Pre(c, n, pk, idx, env, live)
    ensures RelOut(c, Exec(c.m, n, c.Big(env), tr, fuel), Exec(c.m, c.Sub(n, pk, idx), env, tr, fuel))
    decreases fuel, n, 1, |n.children| + 1
  {
    hide ShapeOk, Ins, Subst, Finish, Refs, SafeRefs, StmtWritesIdentOf, IsPureExpr, PureVal;
    var s := c.Sub(n, pk, idx);
    SubShape(c, n, pk, idx);
    BigLen(c, env);
    SafeKids(n);
    SimKids(c, n, pk, idx, EvalLo(n), EvalHi(n), env, tr, fuel, live);
    var o := ExecKids(c.m, n, EvalLo(n), EvalHi(n), c.Big(env), tr, fuel);
    var o' := ExecKids(c.m, s, EvalLo(n), EvalHi(n), env, tr, fuel);
    match o
    case Vals(vs, _, tr1) =>
      FinishRel(c, n, pk, idx, vs, o'.env, tr1);
      LeavingRel(c, Finish(c.m, n, vs, o.env, tr1), Finish(c.m, s, vs, o'.env, tr1), |env|);
    case Early(out) =>
      if !out.Fault? {
        LeavingRel(c, out, o'.out, |env|);
      }
  }

  /** Evaluated children are in reference position, and a plain node is a safe context. */
  lemma SafeKids(n: Node)
    requires ShapeOk(n) && IsPlain(n.kind)
    ensures !UnsafeKind(n.kind) && forall j | EvalLo(n) <= j < EvalHi(n) :: RoleAt(n.kind, j) == Reference
  {}

  /** The evaluated children stay in step: each one before the use keeps the initialiser's value. */
  lemma {:induction false} SimKids(c: Inlining, n: Node, pk: Kind, idx: nat, i: nat, hi: nat,
                                   env: Env, tr: Trace, fuel: nat, live: bool)
    requires HasKids(n) && !UnsafeKind(n.kind) && i <= hi <= |n.children|
    requires forall j | i <= j < hi :: RoleAt(n.kind, j) == Reference
    requires Pre(c, n, pk, idx, env, live)
    ensures |c.Sub(n, pk, idx).children| == |n.children|
    ensures RelKids(c, ExecKids(c.m, n, i, hi, c.Big(env), tr, fuel),
                    ExecKids(c.m, c.Sub(n, pk, idx), i, hi, env, tr, fuel))
    decreases fuel, n, 1, hi - i
  {
    hide ShapeOk, Ins, Subst, Exec, Pre, RelEnv, EvalLo, EvalHi, RoleAt, HasKids, RelOut;
    SlotBelow(c, n, pk, idx, env, live);
    var s := c.Sub(n, pk, idx);
    SubShape(c, n, pk, idx);
    if i < hi {
      PreKid(c, n, pk, idx, env, live, i);
      Sim(c, n.children[i], n.kind, i, env, tr, fuel, live);
      var o := Exec(c.m, n.children[i], c.Big(env), tr, fuel);
      var o' := Exec(c.m, s.children[i], env, tr, fuel);
      RelShape(c, o, o');
      match o
      case Done(w, big1, tr1) =>
        PreAfter(c, n, pk, idx, env, live, i, tr, fuel, o');
        SimKids(c, n, pk, idx, i + 1, hi, o'.env, tr1, fuel, live);
      case _ =>
    }
  }

  lemma RelShape(c: Inlining, o: Out, o': Out)
    requires RelOut(c, o, o')
    ensures o.Done? ==> o'.Done? && o'.v == o.v && o'.tr == o.tr
    ensures !o.Done? && !o.Fault? ==> !o'.Done?
  {
    hide RelEnv;
  }

  lemma {:induction false} SimShortCircuit(c: Inlining, n: Node, pk: Kind, idx: nat, env: Env, tr: Trace, fuel: nat,
                                           live: bool)
    requires HasKids(n) && ShapeOk(n) && ShortCircuit(n) && Pre(c, n, pk, idx, env, live)
    ensures ShapeOk(c.Sub(n, pk, idx)) && ShortCircuit(c.Sub(n, pk, idx))
    ensures RelOut(c, ExecShortCircuit(c.m, n, c.Big(env), tr, fuel),
                   ExecShortCircuit(c.m, c.Sub(n, pk, idx), env, tr, fuel))
    decreases fuel, n, 1, 0
  {
    hide Pre, Ins, Subst, Exec, RelEnv;
    var s := c.Sub(n, pk, idx);
    SubShape(c, n, pk, idx);
    PreKid(c, n, pk, idx, env, live, 0);
    Sim(c, n.children[0], n.kind, 0, env, tr, fuel, live);
    var o := Exec(c.m, n.children[0], c.Big(env), tr, fuel);
    var o' := Exec(c.m, s.children[0], env, tr, fuel);
    match o
    case Done(w, big1, tr1) =>
      PreAfter(c, n, pk, idx, env, live, 0, tr, fuel, o');
      forall j | 1 <= j < |n.children|
        ensures RelOut(c, Exec(c.m, n.children[j], big1, tr1, fuel), Exec(c.m, s.children[j], o'.env, tr1, fuel))
      {
        SimLater(c, n, pk, idx, j, big1, o'.env, tr1, fuel, live);
      }
    case _ =>
  }

  lemma {:induction false} SimIf(c: Inlining, n: Node, pk: Kind, idx: nat, env: Env, tr: Trace, fuel: nat, live: bool)
    requires HasKids(n) && ShapeOk(n) && n.kind == IfStmt && Pre(c, n, pk, idx, env, live)
    ensures ShapeOk(c.Sub(n, pk, idx)) && c.Sub(n, pk, idx).kind == IfStmt
    ensures RelOut(c, ExecIf(c.m, n, c.Big(env), tr, fuel), ExecIf(c.m, c.Sub(n, pk, idx), env, tr, fuel))
    decreases fuel, n, 1, 0
  {
    hide Pre, Ins, Subst, Exec, RelEnv;
    var s := c.Sub(n, pk, idx);
    SubShape(c, n, pk, idx);
    PreKid(c, n, pk, idx, env, live, 0);
    Sim(c, n.children[0], n.kind, 0, env, tr, fuel, live);
    var o := Exec(c.m, n.children[0], c.Big(env), tr, fuel);
    var o' := Exec(c.m, s.children[0], env, tr, fuel);
    match o
    case Done(w, big1, tr1) =>
      PreAfter(c, n, pk, idx, env, live, 0, tr, fuel, o');
      forall j | 1 <= j < |n.children|
        ensures RelOut(c, Exec(c.m, n.children[j], big1, tr1, fuel), Exec(c.m, s.children[j], o'.env, tr1, fuel))
      {
        SimLater(c, n, pk, idx, j, big1, o'.env, tr1, fuel, live);
      }
    case _ =>
  }

  lemma {:induction false} SimLater(c: Inlining, n: Node, pk: Kind, idx: nat, j: nat, big: Env, env: Env, tr: Trace,
                                    fuel: nat, live: bool)
    requires HasKids(n) && Pre(c, n, pk, idx, env, live) && RelEnv(c, big, env) && 1 <= j < |n.children|
    requires ShortCircuit(n) || n.kind == IfStmt
    ensures RelOut(c, Exec(c.m, n.children[j], big, tr, fuel),
                   Exec(c.m, c.Sub(n.children[j], n.kind, j), env, tr, fuel))
    decreases fuel, n, 0, 0
  {
    hide Pre, Ins, Subst, Exec;
    PreKid(c, n, pk, idx, env, live, j);
    Sim(c, n.children[j], n.kind, j, env, tr, fuel, live);
  }

  lemma {:induction false} SimLoop(c: Inlining, n: Node, pk: Kind, idx: nat, env: Env, tr: Trace, fuel: nat)
    requires HasKids(n) && ShapeOk(n) && n.kind == LoopStmt && Pre(c, n, pk, idx, env, false)
    ensures RelOut(c, Exec(c.m, n, c.Big(env), tr, fuel), Exec(c.m, c.Sub(n, pk, idx), env, tr, fuel))
    decreases fuel, n, 1, 4
  {
    hide Ins, Subst, Finish, Refs, PureVal, IsPureExpr, Pre, Iterate, LoopStart, RelEnv, FreeAbove, ExecKids;
    var s := c.Sub(n, pk, idx);
    SubShape(c, n, pk, idx);
    BigLen(c, env);
    SimStart(c, n, pk, idx, env, tr, fuel);
    var o, o' := LoopStart(c.m, n, c.Big(env), tr, fuel), LoopStart(c.m, s, env, tr, fuel);
    match o
    case Done(_, big1, tr1) =>
      SimIterate(c, n, pk, idx, o'.env, tr1, fuel);
      SlotBelow(c, n, pk, idx, env, false);
      LeavingRel(c, Iterate(c.m, n, big1, tr1, fuel), Iterate(c.m, s, o'.env, tr1, fuel), |env|);
    case _ =>
  }

  lemma SlotBelow(c: Inlining, n: Node, pk: Kind, idx: nat, env: Env, live: bool)
    requires Pre(c, n, pk, idx, env, live)
    ensures c.k <= |env| && RelEnv(c, c.Big(env), env)
  {}

  /** Binding the loop variable, if there is one, keeps both runs in step. */
  lemma {:induction false} SimStart(c: Inlining, n: Node, pk: Kind, idx: nat, env: Env, tr: Trace, fuel: nat)
    requires HasKids(n) && ShapeOk(n) && n.kind == LoopStmt && Pre(c, n, pk, idx, env, false)
    ensures ShapeOk(c.Sub(n, pk, idx)) && c.Sub(n, pk, idx).kind == LoopStmt
    ensures var o, o' := LoopStart(c.m, n, c.Big(env), tr, fuel), LoopStart(c.m, c.Sub(n, pk, idx), env, tr, fuel);
            RelOut(c, o, o') && (o.Done? ==> Pre(c, n, pk, idx, o'.env, false) && o.env == c.Big(o'.env))
    decreases fuel, n, 1, 0
  {
    hide Pre, Ins, Subst, Exec, RelEnv;
    SubShape(c, n, pk, idx);
    if IsWhile(n) {
      SlotBelow(c, n, pk, idx, env, false);
    } else {
      SimPart(c, n, pk, idx, 0, env, tr, fuel);
    }
  }

  lemma {:induction false} SimStep(c: Inlining, n: Node, pk: Kind, idx: nat, env: Env, tr: Trace, fuel: nat)
    requires HasKids(n) && ShapeOk(n) && n.kind == LoopStmt && Pre(c, n, pk, idx, env, false)
    ensures ShapeOk(c.Sub(n, pk, idx)) && c.Sub(n, pk, idx).kind == LoopStmt
    ensures var o, o' := LoopStep(c.m, n, c.Big(env), tr, fuel), LoopStep(c.m, c.Sub(n, pk, idx), env, tr, fuel);
            RelOut(c, o, o') && (o.Done? ==> Pre(c, n, pk, idx, o'.env, false) && o.env == c.Big(o'.env))
    decreases fuel, n, 1, 0
  {
    hide Pre, Ins, Subst, Exec, RelEnv;
    SubShape(c, n, pk, idx);
    if IsWhile(n) {
      SlotBelow(c, n, pk, idx, env, false);
    } else {
      SimPart(c, n, pk, idx, 2, env, tr, fuel);
    }
  }

  /** One part of a loop. */
  lemma {:induction false} SimPart(c: Inlining, n: Node, pk: Kind, idx: nat, j: nat, env: Env, tr: Trace, fuel: nat)
    requires HasKids(n) && n.kind == LoopStmt && j < |n.children| && Pre(c, n, pk, idx, env, false)
    ensures |c.Sub(n, pk, idx).children| == |n.children|
    ensures var o, o' := Exec(c.m, n.children[j], c.Big(env), tr, fuel),
                         Exec(c.m, c.Sub(n, pk, idx).children[j], env, tr, fuel);
            RelOut(c, o, o') && (o.Done? ==> Pre(c, n, pk, idx, o'.env, false) && o.env == c.Big(o'.env))
    decreases fuel, n, 0, 0
  {
    hide Pre, Ins, Subst, Exec, RelEnv, ShapeOk;
    SubShape(c, n, pk, idx);
    PreKid(c, n, pk, idx, env, false, j);
    Sim(c, n.children[j], n.kind, j, env, tr, fuel, false);
    if Exec(c.m, n.children[j], c.Big(env), tr, fuel).Done? {
      PreAfter(c, n, pk, idx, env, false, j, tr, fuel, Exec(c.m, c.Sub(n, pk, idx).children[j], env, tr, fuel));
    }
  }

  lemma {:induction false} SimIterate(c: Inlining, n: Node, pk: Kind, idx: nat, env: Env, tr: Trace, fuel: nat)
    requires HasKids(n) && ShapeOk(n) && n.kind == LoopStmt && Pre(c, n, pk, idx, env, false)
    ensures ShapeOk(c.Sub(n, pk, idx)) && c.Sub(n, pk, idx).kind == LoopStmt
    ensures RelOut(c, Iterate(c.m, n, c.Big(env), tr, fuel), Iterate(c.m, c.Sub(n, pk, idx), env, tr, fuel))
    decreases fuel, n, 1, 3
  {
    hide Pre, Ins, Subst, Exec, RelEnv;
    SubShape(c, n, pk, idx);
    SimPart(c, n, pk, idx, CondAt(n), env, tr, fuel);
    var o := Exec(c.m, n.children[CondAt(n)], c.Big(env), tr, fuel);
    var o' := Exec(c.m, c.Sub(n, pk, idx).children[CondAt(n)], env, tr, fuel);
    match o
    case Done(w, big1, tr1) => SimRound(c, n, pk, idx, o'.env, tr1, fuel);
    case _ =>
  }

  lemma {:induction false} SimRound(c: Inlining, n: Node, pk: Kind, idx: nat, env: Env, tr: Trace, fuel: nat)
    requires HasKids(n) && ShapeOk(n) && n.kind == LoopStmt && Pre(c, n, pk, idx, env, false)
    ensures ShapeOk(c.Sub(n, pk, idx)) && c.Sub(n, pk, idx).kind == LoopStmt
    ensures RelOut(c, Round(c.m, n, c.Big(env), tr, fuel), Round(c.m, c.Sub(n, pk, idx), env, tr, fuel))
    decreases fuel, n, 1, 2
  {
    hide Pre, Ins, Subst, Exec, RelEnv, LoopStep;
    var s := c.Sub(n, pk, idx);
    SubShape(c, n, pk, idx);
    SimPart(c, n, pk, idx, BodyAt(n), env, tr, fuel);
    var o := Exec(c.m, n.children[BodyAt(n)], c.Big(env), tr, fuel);
    var o' := Exec(c.m, s.children[BodyAt(n)], env, tr, fuel);
    match o
    case Done(_, big1, tr1) =>
      SimStep(c, n, pk, idx, o'.env, tr1, fuel);
      var p, p' := LoopStep(c.m, n, big1, tr1, fuel), LoopStep(c.m, s, o'.env, tr1, fuel);
      match p {
        case Done(_, big2, tr2) => if fuel > 0 { SimIterate(c, n, pk, idx, p'.env, tr2, fuel - 1); }
        case _ =>
      }
    case _ =>
  }

  lemma {:induction false} SimMatch(c: Inlining, n: Node, pk: Kind, idx: nat, env: Env, tr: Trace, fuel: nat)
    requires HasKids(n) && ShapeOk(n) && n.kind == MatchStmt && Pre(c, n, pk, idx, env, false)
    ensures RelOut(c, Exec(c.m, n, c.Big(env), tr, fuel), Exec(c.m, c.Sub(n, pk, idx), env, tr, fuel))
    decreases fuel, n, 1, |n.children| + 1
  {
    hide Pre, Ins, Subst, Finish, RelEnv, ExecKids, ExecArms, Iterate;
    var s := c.Sub(n, pk, idx);
    SubShape(c, n, pk, idx);
    PreKid(c, n, pk, idx, env, false, 0);
    Sim(c, n.children[0], n.kind, 0, env, tr, fuel, false);
    var o := Exec(c.m, n.children[0], c.Big(env), tr, fuel);
    var o' := Exec(c.m, s.children[0], env, tr, fuel);
    match o
    case Done(w, big1, tr1) =>
      PreAfter(c, n, pk, idx, env, false, 0, tr, fuel, o');
      SimArms(c, n, pk, idx, 1, w, o'.env, tr1, fuel);
    case _ =>
  }

  /** What a match arm looks like to the simulation: same pattern and binder, a body that is ready. */
  lemma ArmReady(c: Inlining, n: Node, pk: Kind, idx: nat, i: nat, w: Value, env: Env)
    requires HasKids(n) && 0 < i < |n.children| && Pre(c, n, pk, idx, env, false)
    requires var arm := n.children[i]; arm.kind == MatchArm && |arm.children| == 3 && IsIdent(arm.children[1])
    ensures var arm, arm' := n.children[i], c.Sub(n.children[i], n.kind, i);
            && arm'.kind == MatchArm && |arm'.children| == 3
            && arm'.children[0].text == arm.children[0].text && arm'.children[1] == arm.children[1]
            && arm'.children[2] == c.Sub(arm.children[2], MatchArm, 2)
            && c.Big(env) + [Slot(arm.children[1].text, w)] == c.Big(env + [Slot(arm.children[1].text, w)])
            && Pre(c, arm.children[2], MatchArm, 2, env + [Slot(arm.children[1].text, w)], false)
  {
    var arm := n.children[i];
    PreKid(c, n, pk, idx, env, false, i);
    PreKid(c, arm, n.kind, i, env, false, 0);
    PreKid(c, arm, n.kind, i, env, false, 1);
    PreKid(c, arm, n.kind, i, env, false, 2);
    SubShape(c, arm, n.kind, i);
    InsPush(env, c.k, c.x, c.v, Slot(arm.children[1].text, w));
    hide Ins, PureVal, IsPureExpr;
  }

  lemma {:induction false} SimArms(c: Inlining, n: Node, pk: Kind, idx: nat, i: nat, w: Value, env: Env, tr: Trace,
                                   fuel: nat)
    requires HasKids(n) && n.kind == MatchStmt && 0 < i <= |n.children| && Pre(c, n, pk, idx, env, false)
    ensures |c.Sub(n, pk, idx).children| == |n.children|
    ensures RelOut(c, ExecArms(c.m, n, i, w, c.Big(env), tr, fuel),
                   ExecArms(c.m, c.Sub(n, pk, idx), i, w, env, tr, fuel))
    decreases fuel, n, 1, |n.children| - i
  {
    hide Ins, Subst, Finish, Refs, PureVal, IsPureExpr, Exec, Ready;
    var s := c.Sub(n, pk, idx);
    SubShape(c, n, pk, idx);
    BigLen(c, env);
    if i < |n.children| {
      var arm := n.children[i];
      if arm.kind == MatchArm && |arm.children| == 3 && IsIdent(arm.children[1]) {
        match c.m.matches(arm.children[0].text, w)
        case None =>
          ArmReady(c, n, pk, idx, i, w, env);
          SimArms(c, n, pk, idx, i + 1, w, env, tr, fuel);
        case Some(u) =>
          ArmReady(c, n, pk, idx, i, u, env);
          var inner := env + [Slot(arm.children[1].text, u)];
          Sim(c, arm.children[2], MatchArm, 2, inner, tr, fuel, false);
          LeavingRel(c, Exec(c.m, arm.children[2], c.Big(inner), tr, fuel),
                     Exec(c.m, s.children[i].children[2], inner, tr, fuel), |env|);
      }
    }
  }
}
