/**
 Deleting an unused `let` (`check_unused_binds`).

 The allowlist `expr_is_inert` admits string literals whatever hangs below them, although an
 interpolated literal evaluates its expressions.  The fix preserves meaning when they hold no call and no
 propagation, and, as long as nothing hides a call from every run, only then.
 */
module LintUnused {
  import opened Wrappers
  import Tokens
  import opened LintAst
  import opened LintSemantics
  import opened LintFrame
  import opened LintInline
  import opened LintContext
  import opened LintInlineFix

  /** Every condition on a fixable finding: statement `i` of the body binds a name that no other
      statement of the body mentions, and its initialiser is on the allowlist. */
  predicate UnusedFixable(fn: Node, i: nat) {
    && fn.kind == FuncDecl && |fn.children| > 0
    && var body := fn.children[|fn.children| - 1];
    && body.kind == StmtList && i < |body.children|
    && var decl := body.children[i];
    && decl.kind == BindStmt && |decl.children| >= 2 && IsIdent(decl.children[0])
    && (forall j | 0 <= j < |body.children| && j != i :: !IdentUsedIn(body.children[j], decl.children[0].text))
    && ExprIsInert(decl.children[|decl.children| - 1])
  }

  function Delete(fn: Node, i: nat): Node
    requires UnusedFixable(fn, i)
  {
    var last := |fn.children| - 1;
    var body := fn.children[last];
    fn.(children := fn.children[last := body.(children := body.children[..i] + body.children[i + 1..])])
  }

  function Init(fn: Node, i: nat): Node
    requires UnusedFixable(fn, i)
  {
    var decl := fn.children[|fn.children| - 1].children[i];
    decl.children[|decl.children| - 1]
  }

  // ----- expressions that only compute -----

  /** The kinds of expression that change nothing beyond what their operands do. */
  predicate Calm(kind: Kind) {
    IsLeaf(kind) || kind == Ident || kind == StrLit || IsPrim(kind) || kind == IfStmt || kind == ExprStmt
      || IsBlock(kind)
  }

  /** Only calm nodes are evaluated. */
  predicate Effectless(n: Node) {
    ShapeOk(n) ==> Calm(n.kind) && forall j | EvalLo(n) <= j < EvalHi(n) :: Effectless(n.children[j])
  }

  /** No call and no propagation is evaluated. */
  predicate NoCall(n: Node) {
    ShapeOk(n) ==>
      && n.kind != CallExpr && n.kind != PropagateExpr
      && forall j | EvalLo(n) <= j < EvalHi(n) :: NoCall(n.children[j])
  }

  /** Running a node only computes a value, or faults. */
  ghost predicate Quiet(o: Out, env: Env, tr: Trace) {
    o.Fault? || (o.Done? && o.env == env && o.tr == tr)
  }

  ghost predicate QuietKids(o: KidsOut, env: Env, tr: Trace) {
    match o
    case Vals(_, env', tr') => env' == env && tr' == tr
    case Early(out) => out.Fault?
  }

  ghost predicate AlwaysQuiet(m: Machine, n: Node) {
    forall env, tr, fuel: nat :: Quiet(Exec(m, n, env, tr, fuel), env, tr)
  }

  lemma {:induction false} EffectlessQuiet(m: Machine, n: Node, env: Env, tr: Trace, fuel: nat)
    requires Effectless(n)
    ensures Quiet(Exec(m, n, env, tr, fuel), env, tr)
    decreases n, 1, 0
  {
    if ShapeOk(n) {
      if ShortCircuit(n) || n.kind == IfStmt {
        forall j | 0 <= j < |n.children| ensures Quiet(Exec(m, n.children[j], env, tr, fuel), env, tr) {
          EffectlessQuiet(m, n.children[j], env, tr, fuel);
        }
        hide Effectless;
      } else {
        EffectlessKids(m, n, EvalLo(n), EvalHi(n), env, tr, fuel);
        hide Effectless, ExecKids;
        FinishQuiet(m, n, env, tr, fuel);
      }
    }
  }

  lemma FinishQuiet(m: Machine, n: Node, env: Env, tr: Trace, fuel: nat)
    requires ShapeOk(n) && Calm(n.kind) && !IsControl(n)
    requires QuietKids(ExecKids(m, n, EvalLo(n), EvalHi(n), env, tr, fuel), env, tr)
    ensures Quiet(Exec(m, n, env, tr, fuel), env, tr)
  {
    hide ExecKids, Lookup, HasInterpFrom;
  }

  lemma {:induction false} EffectlessKids(m: Machine, n: Node, i: nat, hi: nat, env: Env, tr: Trace, fuel: nat)
    requires i <= hi <= |n.children| && forall j | i <= j < hi :: Effectless(n.children[j])
    ensures QuietKids(ExecKids(m, n, i, hi, env, tr, fuel), env, tr)
    decreases n, 0, hi - i
  {
    if i < hi {
      EffectlessQuiet(m, n.children[i], env, tr, fuel);
      hide Exec, Effectless;
      EffectlessKids(m, n, i + 1, hi, env, tr, fuel);
    }
  }

  // ----- deleting a quiet initialiser preserves meaning -----

  /** Two runs of a body that a caller cannot tell apart; a fault or a stray `br` puts no demand. */
  ghost predicate EndsAlike(o: KidsOut, o': KidsOut) {
    match o
    case Vals(_, _, tr) => o'.Vals? && o'.tr == tr
    case Early(out) => out.Fault? || out.Broke? || o' == o
  }

  lemma EndsMore(o: KidsOut, o': KidsOut, v: Value)
    requires EndsAlike(o, o')
    ensures EndsAlike(More(v, o), More(v, o')) && EndsAlike(More(v, o), o')
  {}

  lemma {:induction false} EarlyNotDone(m: Machine, n: Node, i: nat, hi: nat, env: Env, tr: Trace, fuel: nat)
    requires i <= hi <= |n.children|
    ensures var o := ExecKids(m, n, i, hi, env, tr, fuel); o.Early? ==> !o.out.Done?
    decreases hi - i
  {
    hide Exec;
    if i < hi {
      match Exec(m, n.children[i], env, tr, fuel)
      case Done(_, env1, tr1) => EarlyNotDone(m, n, i + 1, hi, env1, tr1, fuel);
      case _ =>
    }
  }

  lemma RelEnds(c: Inlining, o: KidsOut, o': KidsOut)
    requires RelKids(c, o, o') && (o.Early? ==> !o.out.Done?)
    ensures EndsAlike(o, o')
  {
    hide RelEnv;
  }

  predicate LetAt(body: Node, i: nat) {
    && body.kind == StmtList && i < |body.children|
    && var decl := body.children[i];
    && decl.kind == BindStmt && |decl.children| >= 2 && IsIdent(decl.children[0])
    && forall j | i < j < |body.children| :: !IdentUsedIn(body.children[j], decl.children[0].text)
  }

  function InitAt(body: Node, i: nat): Node
    requires LetAt(body, i)
  {
    body.children[i].children[|body.children[i].children| - 1]
  }

  /** From the deleted statement on. */
  lemma FromDeleted(m: Machine, body: Node, body': Node, i: nat, env: Env, tr: Trace, fuel: nat)
    requires LetAt(body, i) && AlwaysQuiet(m, InitAt(body, i))
    requires |body'.children| == |body.children| - 1 && body'.children[i..] == body.children[i + 1..]
    ensures EndsAlike(ExecKids(m, body, i, |body.children|, env, tr, fuel),
                      ExecKids(m, body', i, |body.children| - 1, env, tr, fuel))
  {
    var n, decl := |body.children|, body.children[i];
    var last, x := |decl.children| - 1, decl.children[0].text;
    var o := Exec(m, decl.children[last], env, tr, fuel);
    assert Quiet(o, env, tr);
    var val := if o.Done? then Some(o.v) else None;
    hide Exec, AlwaysQuiet;
    OneKid(m, decl, last, env, tr, fuel, val);
    PlainExec(m, decl, env, tr, fuel);
    if o.Done? {
      var c := Inlining(m, x, Node(IntLit, Tokens.Eof, "", []), o.v, |env|);
      InsTop(env, |env|, x, o.v);
      forall j | i < j < n ensures IdentNodes(body.children[j], StmtList, j, x) == 0 {
        UnusedNodes(body.children[j], StmtList, j, x);
      }
      DeletedTail(c, body, body', i, env, tr, fuel);
    }
  }

  lemma DeletedTail(c: Inlining, body: Node, body': Node, i: nat, env: Env, tr: Trace, fuel: nat)
    requires body.kind == StmtList && i < |body.children| && |body'.children| == |body.children| - 1
    requires body'.children[i..] == body.children[i + 1..]
    requires c.x != "" && c.k == |env| && c.init == Node(IntLit, Tokens.Eof, "", [])
    requires Unmentioned(body, i + 1, c.x)
    requires Exec(c.m, body.children[i], env, tr, fuel) == Done(Unit, c.Big(env), tr)
    ensures EndsAlike(ExecKids(c.m, body, i, |body.children|, env, tr, fuel),
                      ExecKids(c.m, body', i, |body.children| - 1, env, tr, fuel))
  {
    hide Exec, Ins, Unmentioned;
    var n := |body.children|;
    assert body'.children[i..n - 1] == body'.children[i..];
    assert body.children[i + 1..n] == body.children[i + 1..];
    KidsShift(c.m, body, i + 1, n, body', i, n - 1, env, tr, fuel);
    var o, o' := ExecKids(c.m, body, i + 1, n, c.Big(env), tr, fuel), ExecKids(c.m, body, i + 1, n, env, tr, fuel);
    TailSim(c, body, i + 1, env, tr, fuel);
    EarlyNotDone(c.m, body, i + 1, n, c.Big(env), tr, fuel);
    RelEnds(c, o, o');
    EndsMore(o, o', Unit);
  }

  lemma {:induction false} BodyRun(m: Machine, body: Node, body': Node, i: nat, j: nat, env: Env, tr: Trace, fuel: nat)
    requires LetAt(body, i) && AlwaysQuiet(m, InitAt(body, i)) && j <= i
    requires body'.children == body.children[..i] + body.children[i + 1..]
    ensures EndsAlike(ExecKids(m, body, j, |body.children|, env, tr, fuel),
                      ExecKids(m, body', j, |body.children| - 1, env, tr, fuel))
    decreases i - j
  {
    assert i < |body.children|;
    hide Exec, AlwaysQuiet, LetAt;
    if j == i {
      FromDeleted(m, body, body', i, env, tr, fuel);
    } else {
      match Exec(m, body.children[j], env, tr, fuel)
      case Done(w, env1, tr1) =>
        BodyRun(m, body, body', i, j + 1, env1, tr1, fuel);
        EndsMore(ExecKids(m, body, j + 1, |body.children|, env1, tr1, fuel),
                 ExecKids(m, body', j + 1, |body.children| - 1, env1, tr1, fuel), w);
      case _ =>
    }
  }

  /** For an initialiser that is quiet under a machine, runs of that machine stay as they are. */
  lemma DeleteQuiet(m: Machine, fn: Node, i: nat, args: seq<Value>, fuel: nat)
    requires UnusedFixable(fn, i) && AlwaysQuiet(m, Init(fn, i))
    ensures RunFn(m, fn, args, fuel) != Failed ==> RunFn(m, Delete(fn, i), args, fuel) == RunFn(m, fn, args, fuel)
  {
    var last := |fn.children| - 1;
    var fn' := Delete(fn, i);
    var body, body' := fn.children[last], fn'.children[last];
    assert LetAt(body, i) && InitAt(body, i) == Init(fn, i);
    ParamsSame(fn, fn', 0, args);
    if ParamSlots(fn, 0, args).Some? {
      var env := ParamSlots(fn, 0, args).value;
      hide Exec, ExecKids, ParamSlots, ExprIsInert, AlwaysQuiet, IdentUsedIn, Trunc, LetAt;
      BodyRun(m, body, body', i, 0, env, [], fuel);
      BlockExec(m, body, env, [], fuel);
      BlockExec(m, body', env, [], fuel);
    }
  }

  /**
   Main theorem.  For every function, every unused `let` the fix deletes whose initialiser evaluates no
   call, no propagation and no statement, every meaning of the primitives, all arguments and any fuel: a
   run that does not fault keeps its result and its trace.
   */
  lemma DeletePreservesMeaning(m: Machine, fn: Node, i: nat, args: seq<Value>, fuel: nat)
    requires UnusedFixable(fn, i) && Effectless(Init(fn, i))
    ensures RunFn(m, fn, args, fuel) != Failed ==> RunFn(m, Delete(fn, i), args, fuel) == RunFn(m, fn, args, fuel)
  {
    var init := Init(fn, i);
    forall env, tr, fuel: nat ensures Quiet(Exec(m, init, env, tr, fuel), env, tr) {
      EffectlessQuiet(m, init, env, tr, fuel);
    }
    hide UnusedFixable, Effectless, Exec, RunFn, Quiet;
    DeleteQuiet(m, fn, i, args, fuel);
  }

  // ----- and only then -----

  /** A machine whose primitives and calls always succeed and whose propagations always leave. */
  function Marking(): Machine {
    Machine((k, t) => Some(Unit), n => Some(Unit), (k, op, l, vs) => Some(Unit), v => Some(true),
            (vs, tr) => Some(Unit), v => Leave(BoolV(true)), (p, v) => Some(Unit))
  }

  /** A well-shaped expression in which every call and propagation is reached unless the run has ended:
      none stands behind `&&` or `||` or in a branch. */
  predicate Certain(n: Node) {
    && ShapeOk(n) && (Calm(n.kind) || n.kind == CallExpr || n.kind == PropagateExpr)
    && forall j | EvalLo(n) <= j < EvalHi(n) ::
         Certain(n.children[j]) && (IsControl(n) && j > 0 ==> NoCall(n.children[j]))
  }

  lemma {:induction false} CertainEffectless(n: Node)
    requires Certain(n) && NoCall(n)
    ensures Effectless(n)
  {
    forall j | EvalLo(n) <= j < EvalHi(n) ensures Effectless(n.children[j]) { CertainEffectless(n.children[j]); }
  }

  /** How the marking machine ends on a node: a call leaves its mark, a propagation leaves early. */
  ghost predicate Marked(o: Out, env: Env, tr: Trace, calls: bool) {
    if calls then (o.Done? && o.env == env && |o.tr| > |tr|) || (o.Returned? && o.v == BoolV(true))
    else o.Done? && o.env == env && o.tr == tr
  }

  ghost predicate MarkedKids(o: KidsOut, env: Env, tr: Trace, calls: bool) {
    if calls then (o.Vals? && o.env == env && |o.tr| > |tr|) || (o.Early? && o.out.Returned? && o.out.v == BoolV(true))
    else o.Vals? && o.env == env && o.tr == tr
  }

  lemma {:induction false} MarkingRuns(n: Node, env: Env, tr: Trace, fuel: nat)
    requires Certain(n)
    ensures Marked(Exec(Marking(), n, env, tr, fuel), env, tr, !NoCall(n))
    decreases n, 1, 0
  {
    if IsControl(n) {
      MarkingBranch(n, env, tr, fuel);
    } else {
      MarkingKids(n, EvalLo(n), EvalHi(n), env, tr, fuel);
      KidsCalls(n);
      hide Certain, NoCall, ExecKids;
      MarkingFinish(n, env, tr, fuel, !KidsNoCall(n, EvalLo(n), EvalHi(n)));
    }
  }

  /** No call is evaluated in some children. */
  predicate KidsNoCall(n: Node, i: nat, hi: nat)
    requires i <= hi <= |n.children|
  {
    forall j | i <= j < hi :: NoCall(n.children[j])
  }

  lemma KidsCalls(n: Node)
    requires Certain(n)
    ensures NoCall(n) <==> n.kind != CallExpr && n.kind != PropagateExpr && KidsNoCall(n, EvalLo(n), EvalHi(n))
  {}

  lemma MarkingFinish(n: Node, env: Env, tr: Trace, fuel: nat, calls: bool)
    requires ShapeOk(n) && (Calm(n.kind) || n.kind == CallExpr || n.kind == PropagateExpr) && !IsControl(n)
    requires MarkedKids(ExecKids(Marking(), n, EvalLo(n), EvalHi(n), env, tr, fuel), env, tr, calls)
    ensures Marked(Exec(Marking(), n, env, tr, fuel), env, tr, calls || n.kind == CallExpr || n.kind == PropagateExpr)
  {
    hide ExecKids, Lookup, HasInterpFrom;
  }

  lemma {:induction false} MarkingBranch(n: Node, env: Env, tr: Trace, fuel: nat)
    requires Certain(n) && IsControl(n)
    ensures Marked(Exec(Marking(), n, env, tr, fuel), env, tr, !NoCall(n))
    decreases n, 0, 0
  {
    MarkingRuns(n.children[0], env, tr, fuel);
    assert NoCall(n) <==> NoCall(n.children[0]);
    var o := Exec(Marking(), n.children[0], env, tr, fuel);
    if o.Done? { MarkingRuns(n.children[1], o.env, o.tr, fuel); }
    hide Certain, NoCall;
  }

  lemma {:induction false} MarkingKids(n: Node, i: nat, hi: nat, env: Env, tr: Trace, fuel: nat)
    requires i <= hi <= |n.children| && forall j | i <= j < hi :: Certain(n.children[j])
    ensures MarkedKids(ExecKids(Marking(), n, i, hi, env, tr, fuel), env, tr, !KidsNoCall(n, i, hi))
    decreases n, 0, hi - i
  {
    if i < hi {
      MarkingRuns(n.children[i], env, tr, fuel);
      assert KidsNoCall(n, i, hi) <==> NoCall(n.children[i]) && KidsNoCall(n, i + 1, hi);
      hide Exec, Certain, NoCall, KidsNoCall;
      var o := Exec(Marking(), n.children[i], env, tr, fuel);
      if o.Done? { MarkingKids(n, i + 1, hi, o.env, o.tr, fuel); }
    }
  }

  /** `f(){let x=init; <}`: a function whose one `let` is unused. */
  function Probe(x: string, init: Node): Node {
    var none := Tokens.Eof;
    Node(FuncDecl, none, "", [Node(StmtList, none, "", [
      Node(BindStmt, none, "", [Node(Ident, none, x, []), init]), Node(ReturnStmt, none, "", [])])])
  }

  ghost predicate KeepsMeaning(fn: Node, fn': Node) {
    forall m, args, fuel: nat ::
      RunFn(m, fn, args, fuel) != Failed ==> RunFn(m, fn', args, fuel) == RunFn(m, fn, args, fuel)
  }

  /** Every function keeps its meaning when an unused `let` with this initialiser is deleted from it. */
  ghost predicate AlwaysKeeps(init: Node) {
    forall fn, i: nat :: UnusedFixable(fn, i) && Init(fn, i) == init ==> KeepsMeaning(fn, Delete(fn, i))
  }

  lemma QuietKeeps(init: Node)
    requires forall m :: AlwaysQuiet(m, init)
    ensures AlwaysKeeps(init)
  {
    forall fn, i: nat | UnusedFixable(fn, i) && Init(fn, i) == init ensures KeepsMeaning(fn, Delete(fn, i)) {
      forall m, args, fuel: nat
        ensures RunFn(m, fn, args, fuel) != Failed ==> RunFn(m, Delete(fn, i), args, fuel) == RunFn(m, fn, args, fuel)
      {
        DeleteQuiet(m, fn, i, args, fuel);
      }
    }
  }

  /** Exactness, over all functions: for an initialiser on the allowlist that hides no call, deleting it
      keeps the meaning of every function if and only if no call and no propagation is evaluated in it,
      which for an allowlisted expression means: lies below an interpolation. */
  lemma DeleteIffNoCall(init: Node)
    requires ExprIsInert(init) && Certain(init)
    ensures AlwaysKeeps(init) <==> NoCall(init)
  {
    if NoCall(init) {
      CertainEffectless(init);
      forall m, env, tr, fuel: nat ensures Quiet(Exec(m, init, env, tr, fuel), env, tr) {
        EffectlessQuiet(m, init, env, tr, fuel);
      }
      hide Effectless, NoCall, Certain, Exec, Quiet;
      assert forall m :: AlwaysQuiet(m, init);
      QuietKeeps(init);
    } else {
      ProbeRuns("x", init);
      var fn := Probe("x", init);
      assert Init(fn, 0) == init && !KeepsMeaning(fn, Delete(fn, 0));
    }
  }

  // ----- three initialisers -----

  /** A string with one interpolation, as the parser builds it. */
  function Interpolated(text: string, e: Node): Node {
    Node(StrLit, Tokens.Eof, text, [e])
  }

  function Name(x: string): Node { Node(Ident, Tokens.Eof, x, []) }

  /** `"\(f())"` */
  function InterpolatedCall(): Node {
    Interpolated("\"\\(f())\"", Node(CallExpr, Tokens.Eof, "", [Name("f")]))
  }

  /** `"\(y)"` */
  function InterpolatedName(): Node {
    Interpolated("\"\\(y)\"", Name("y"))
  }

  lemma InterpolatedHolds(text: string, e: Node)
    requires |text| > 2 && text[..3] == "\"\\("
    ensures HasInterp(Interpolated(text, e)) && EvalHi(Interpolated(text, e)) == 1
  {
    assert text[0] == text[..3][0] && text[1] == text[..3][1] && text[2] == text[..3][2];
    assert HasInterpFrom(text, 1);
  }

  /** The fix deletes a call: `let x="\(f())"` passes every guard, and the trace loses the call. */
  lemma DeletesACall(x: string)
    requires x != ""
    ensures UnusedFixable(Probe(x, InterpolatedCall()), 0) && !AlwaysKeeps(InterpolatedCall())
    ensures var r := RunFn(Marking(), Probe(x, InterpolatedCall()), [], 0);
            r.Result? && (r.tr != [] || r.v != Some(Unit))
    ensures RunFn(Marking(), Delete(Probe(x, InterpolatedCall()), 0), [], 0) == Result(Some(Unit), [])
  {
    var init := InterpolatedCall();
    var call := init.children[0];
    InterpolatedHolds(init.text, call);
    hide HasInterp;
    assert Certain(Name("f")) && Certain(call) && !NoCall(call);
    assert Certain(init) && !NoCall(init);
    ProbeRuns(x, init);
    DeleteIffNoCall(init);
  }

  /** Reading a name is no reason to keep the `let`. */
  lemma KeepsAName()
    ensures AlwaysKeeps(InterpolatedName())
  {
    var init := InterpolatedName();
    InterpolatedHolds(init.text, Name("y"));
    hide HasInterp;
    assert Certain(Name("y")) && NoCall(Name("y"));
    assert Certain(init) && NoCall(init);
    DeleteIffNoCall(init);
  }

  /** `y||(y&&"\(f())")` */
  function HiddenCall(): Node {
    Node(BinaryExpr, Tokens.Or, "", [Name("y"), Node(BinaryExpr, Tokens.And, "", [Name("y"), InterpolatedCall()])])
  }

  /** The condition cannot be exact behind short-circuit operators: here a call lies below an
      interpolation, no run reaches it, and deleting the initialiser always keeps the meaning. */
  lemma HiddenCallKeeps()
    ensures ExprIsInert(HiddenCall()) && !NoCall(HiddenCall()) && AlwaysKeeps(HiddenCall())
  {
    var init := HiddenCall();
    var inner := init.children[1];
    var str := inner.children[1];
    InterpolatedHolds(str.text, str.children[0]);
    hide HasInterp;
    assert !NoCall(str.children[0]) && !NoCall(str) && !NoCall(inner);
    assert ExprIsInert(str) && ExprIsInert(Name("y")) && ExprIsInert(inner);
    forall m, env, tr, fuel: nat ensures Quiet(Exec(m, init, env, tr, fuel), env, tr) {
      HiddenQuiet(m, env, tr, fuel);
    }
    hide NoCall, Exec, Quiet;
    assert forall m :: AlwaysQuiet(m, init);
    QuietKeeps(init);
  }

  lemma HiddenQuiet(m: Machine, env: Env, tr: Trace, fuel: nat)
    ensures Quiet(Exec(m, HiddenCall(), env, tr, fuel), env, tr)
  {
    var y := Name("y");
    PureExec(m, y, env, tr, fuel);
    hide PureVal, Lookup, InterpolatedCall, Exec;
    var inner := HiddenCall().children[1];
    ShortExec(m, HiddenCall(), env, tr, fuel);
    ShortExec(m, inner, env, tr, fuel);
  }

  lemma ShortExec(m: Machine, n: Node, env: Env, tr: Trace, fuel: nat)
    requires ShapeOk(n) && ShortCircuit(n)
    ensures Exec(m, n, env, tr, fuel) == ExecShortCircuit(m, n, env, tr, fuel)
  {
    hide ExecShortCircuit;
  }

  lemma ReturnRuns(m: Machine, ret: Node, env: Env, tr: Trace, fuel: nat)
    requires ret.kind == ReturnStmt && ret.children == []
    ensures Exec(m, ret, env, tr, fuel) == Returned(Unit, tr)
  {
    assert ExecKids(m, ret, 0, 0, env, tr, fuel) == Vals([], env, tr);
    hide Exec;
    PlainExec(m, ret, env, tr, fuel);
  }

  lemma LetRuns(m: Machine, decl: Node, env: Env, tr: Trace, fuel: nat)
    requires decl.kind == BindStmt && |decl.children| == 2 && IsIdent(decl.children[0])
    requires Exec(m, decl.children[1], env, tr, fuel).Done?
    ensures var o := Exec(m, decl.children[1], env, tr, fuel);
            Exec(m, decl, env, tr, fuel) == Done(Unit, o.env + [Slot(decl.children[0].text, o.v)], o.tr)
  {
    hide Exec;
    var o := Exec(m, decl.children[1], env, tr, fuel);
    assert ExecKids(m, decl, 2, 2, o.env, o.tr, fuel) == Vals([], o.env, o.tr);
    assert ExecKids(m, decl, 1, 2, env, tr, fuel) == Vals([o.v], o.env, o.tr);
    PlainExec(m, decl, env, tr, fuel);
  }

  lemma LetLeaves(m: Machine, decl: Node, env: Env, tr: Trace, fuel: nat)
    requires decl.kind == BindStmt && |decl.children| == 2 && IsIdent(decl.children[0])
    requires Exec(m, decl.children[1], env, tr, fuel).Returned?
    ensures Exec(m, decl, env, tr, fuel) == Exec(m, decl.children[1], env, tr, fuel)
  {
    hide Exec;
    assert ExecKids(m, decl, 1, 2, env, tr, fuel) == Early(Exec(m, decl.children[1], env, tr, fuel));
    PlainExec(m, decl, env, tr, fuel);
  }

  lemma ProbeRuns(x: string, init: Node)
    requires x != "" && ExprIsInert(init) && Certain(init) && !NoCall(init)
    ensures UnusedFixable(Probe(x, init), 0)
    ensures var r := RunFn(Marking(), Probe(x, init), [], 0); r.Result? && (r.tr != [] || r.v != Some(Unit))
    ensures RunFn(Marking(), Delete(Probe(x, init), 0), [], 0) == Result(Some(Unit), [])
  {
    var m, fn := Marking(), Probe(x, init);
    assert ExprIsInert(init);
    MarkingRuns(init, [], [], 0);
    hide Exec, Certain, ExprIsInert, NoCall;
    var fn' := Delete(fn, 0);
    var body, body' := fn.children[0], fn'.children[0];
    var decl, ret := body.children[0], body.children[1];
    assert body'.children == [ret];
    var o := Exec(m, init, [], [], 0);
    ReturnRuns(m, ret, [], [], 0);
    if o.Done? {
      LetRuns(m, decl, [], [], 0);
      assert o.env + [Slot(x, o.v)] == [Slot(x, o.v)];
      ReturnRuns(m, ret, [Slot(x, o.v)], o.tr, 0);
      assert ExecKids(m, body, 1, 2, [Slot(x, o.v)], o.tr, 0) == Early(Returned(Unit, o.tr));
      assert ExecKids(m, body, 0, 2, [], [], 0) == Early(Returned(Unit, o.tr));
    } else {
      LetLeaves(m, decl, [], [], 0);
      assert ExecKids(m, body, 0, 2, [], [], 0) == Early(o);
    }
    assert ExecKids(m, body', 0, 1, [], [], 0) == Early(Returned(Unit, []));
    BlockExec(m, body, [], [], 0);
    BlockExec(m, body', [], [], 0);
    assert ParamSlots(fn, 1, []) == Some([]) && ParamSlots(fn', 1, []) == Some([]);
  }
}
