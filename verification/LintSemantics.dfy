/**
 The value-semantic core language in which the lint rewrites are judged.

 Locals live on a stack of slots: a `let` pushes, a block pops what it pushed, an assignment updates
 the innermost slot of its name.  Calls never touch locals; they append to a trace of events, and their
 results may depend on the whole trace.  An interpolated string evaluates the expressions that the parser
 hangs below it, from left to right, and joins their values with its text.  Operators, literals, field
 access, matching and calls are given by a `Machine`, so every theorem holds for every meaning of the
 primitives, faults included.
 `fuel` bounds the iterations of each loop; a run that exhausts it keeps the trace produced so far.
 */
module LintSemantics {
  import opened Wrappers
  import Tokens
  import opened LintAst

  datatype Value =
    | Unit
    | BoolV(b: bool)
    | IntV(n: int)
    | RealV(r: real)
    | StrV(s: string)
    | DataV(tag: string, items: seq<Value>)

  datatype Slot = Slot(name: string, val: Value)

  type Env = seq<Slot>

  datatype Event = Called(args: seq<Value>)

  type Trace = seq<Event>

  /** What `e!T` does with a value: carry on, leave the function, or fault. */
  datatype Propagated = CarryOn(v: Value) | Leave(w: Value) | Stuck

  datatype Machine = Machine(
    leaf: (Kind, string) -> Option<Value>,
    global: string -> Option<Value>,
    prim: (Kind, Tokens.TokenKind, string, seq<Value>) -> Option<Value>,
    truth: Value -> Option<bool>,
    call: (seq<Value>, Trace) -> Option<Value>,
    propagate: Value -> Propagated,
    matches: (string, Value) -> Option<Value>)

  /** How running a node ends. */
  datatype Out =
    | Done(v: Value, env: Env, tr: Trace)
    | Broke(env: Env, tr: Trace)
    | Returned(v: Value, tr: Trace)
    | Fault
    | Timeout(tr: Trace)

  /** How running some children ends: with all their values, or early. */
  datatype KidsOut = Vals(vs: seq<Value>, env: Env, tr: Trace) | Early(out: Out)

  // ----- environments -----

  function Lookup(env: Env, name: string): Option<Value> {
    if env == [] then None
    else if env[|env| - 1].name == name then Some(env[|env| - 1].val)
    else Lookup(env[..|env| - 1], name)
  }

  /** The innermost slot called `name` gets the value `v`; `None` when there is no such slot. */
  function Update(env: Env, name: string, v: Value): (r: Option<Env>)
    ensures r.Some? ==> |r.value| == |env|
  {
    if env == [] then None
    else
      var last := |env| - 1;
      if env[last].name == name then Some(env[last := Slot(name, v)])
      else
        match Update(env[..last], name, v)
        case None => None
        case Some(front) => Some(front + [env[last]])
  }

  function Trunc(env: Env, n: nat): Env {
    if |env| <= n then env else env[..n]
  }

  /** A block ends: its own slots are dropped. */
  function Leaving(o: Out, n: nat): Out {
    match o
    case Done(v, env, tr) => Done(v, Trunc(env, n), tr)
    case Broke(env, tr) => Broke(Trunc(env, n), tr)
    case _ => o
  }

  // ----- plain nodes -----

  predicate IsLeaf(kind: Kind) {
    kind == IntLit || kind == FloatLit || kind == BoolLit || kind == TypeIdent || kind == TypeExpr || kind == FuncRef
  }

  predicate IsBlock(kind: Kind) {
    kind == StmtList || kind == ArenaStmt
  }

  predicate IsPrim(kind: Kind) {
    || kind == BinaryExpr || kind == UnaryExpr || kind == CastExpr || kind == IndexExpr || kind == FieldExpr
    || kind == ArrayLit || kind == MapLit || kind == MapEntry || kind == StructLit || kind == FieldInit
  }

  predicate IsBinding(kind: Kind) {
    kind == BindStmt || kind == MutBindStmt || kind == LoopInit
  }

  /** `&&` and `||` evaluate their right operand only when the left one does not decide. */
  predicate ShortCircuit(n: Node) {
    n.kind == BinaryExpr && (n.op == Tokens.And || n.op == Tokens.Or)
  }

  predicate IsControl(n: Node) {
    ShortCircuit(n) || n.kind == IfStmt || n.kind == LoopStmt || n.kind == MatchStmt
  }

  predicate IsPlain(kind: Kind) {
    || IsLeaf(kind) || IsBlock(kind) || IsPrim(kind) || IsBinding(kind)
    || kind == Ident || kind == StrLit || kind == CallExpr || kind == PropagateExpr || kind == AssignStmt
    || kind == ReturnStmt || kind == BreakStmt || kind == ExprStmt
  }

  /** The children a node needs. */
  predicate ShapeOk(n: Node) {
    var k := |n.children|;
    if n.kind == FieldExpr then k == 2 && IsIdent(n.children[1])
    else if n.kind == AssignStmt then k == 2 && IsIdent(n.children[0])
    else if IsBinding(n.kind) then k >= 2 && IsIdent(n.children[0])
    else if n.kind == CastExpr then k >= 1 && (k == 1 || n.children[1].kind != Ident)
    else if n.kind == PropagateExpr || n.kind == ExprStmt || n.kind == MatchStmt then k >= 1
    else if n.kind == ReturnStmt then k <= 1
    else if n.kind == IfStmt then k == 2 || k == 3
    else if n.kind == LoopStmt then k == 2 || k == 4
    else if n.kind == BinaryExpr then k == 2
    else true
  }

  /** The children `[lo, hi)` of a plain node that are evaluated, left to right. */
  function EvalLo(n: Node): nat
    requires ShapeOk(n)
    ensures EvalLo(n) <= |n.children|
  {
    if n.kind == AssignStmt then 1 else if IsBinding(n.kind) then |n.children| - 1 else 0
  }

  function EvalHi(n: Node): nat
    requires ShapeOk(n)
    ensures EvalLo(n) <= EvalHi(n) <= |n.children|
  {
    if IsLeaf(n.kind) || n.kind == Ident || n.kind == BreakStmt || (n.kind == StrLit && !HasInterp(n)) then 0
    else if n.kind == FieldExpr || n.kind == CastExpr || n.kind == PropagateExpr || n.kind == ExprStmt then 1
    else |n.children|
  }

  function Last(vs: seq<Value>): Value {
    if vs == [] then Unit else vs[|vs| - 1]
  }

  /** The name a primitive is applied under: a field, a target type, or the node's own text. */
  function Label(n: Node): string {
    if (n.kind == FieldExpr || n.kind == CastExpr) && |n.children| >= 2 then n.children[1].text else n.text
  }

  function Or<T>(v: Option<T>, w: Option<T>): Option<T> {
    if v.Some? then v else w
  }

  function Yield(v: Option<Value>, env: Env, tr: Trace): Out {
    match v
    case None => Fault
    case Some(w) => Done(w, env, tr)
  }

  /** What a plain node does once the values of its evaluated children are known. */
  function Finish(m: Machine, n: Node, vs: seq<Value>, env: Env, tr: Trace): Out
    requires ShapeOk(n)
  {
    if IsLeaf(n.kind) then Yield(m.leaf(n.kind, n.text), env, tr)
    else if n.kind == Ident then Yield(Or(Lookup(env, n.text), m.global(n.text)), env, tr)
    else if n.kind == StrLit then
      Yield(if HasInterp(n) then m.prim(n.kind, n.op, n.text, vs) else m.leaf(n.kind, n.text), env, tr)
    else if IsPrim(n.kind) then Yield(m.prim(n.kind, n.op, Label(n), vs), env, tr)
    else if n.kind == CallExpr then Yield(m.call(vs, tr), env, tr + [Called(vs)])
    else if n.kind == PropagateExpr then
      match m.propagate(Last(vs))
      case CarryOn(v) => Done(v, env, tr)
      case Leave(w) => Returned(w, tr)
      case Stuck => Fault
    else if IsBinding(n.kind) then Done(Unit, env + [Slot(n.children[0].text, Last(vs))], tr)
    else if n.kind == AssignStmt then
      match Update(env, n.children[0].text, Last(vs))
      case None => Fault
      case Some(env') => Done(Unit, env', tr)
    else if n.kind == ReturnStmt then Returned(Last(vs), tr)
    else if n.kind == BreakStmt then Broke(env, tr)
    else if n.kind == ExprStmt || IsBlock(n.kind) then Done(Last(vs), env, tr)
    else Fault
  }

  // ----- the interpreter -----

  function Exec(m: Machine, n: Node, env: Env, tr: Trace, fuel: nat): Out
    decreases fuel, n, 2, 0
  {
    if !ShapeOk(n) then Fault
    else if ShortCircuit(n) then ExecShortCircuit(m, n, env, tr, fuel)
    else if n.kind == IfStmt then ExecIf(m, n, env, tr, fuel)
    else if n.kind == LoopStmt then
      match LoopStart(m, n, env, tr, fuel)
      case Done(_, env1, tr1) => Leaving(Iterate(m, n, env1, tr1, fuel), |env|)
      case o => o
    else if n.kind == MatchStmt then
      match Exec(m, n.children[0], env, tr, fuel)
      case Done(v, env1, tr1) => ExecArms(m, n, 1, v, env1, tr1, fuel)
      case o => o
    else if IsPlain(n.kind) then
      var o := match ExecKids(m, n, EvalLo(n), EvalHi(n), env, tr, fuel)
               case Vals(vs, env1, tr1) => Finish(m, n, vs, env1, tr1)
               case Early(o) => o;
      if IsBlock(n.kind) then Leaving(o, |env|) else o
    else Fault
  }

  function ExecKids(m: Machine, n: Node, i: nat, hi: nat, env: Env, tr: Trace, fuel: nat): KidsOut
    requires i <= hi <= |n.children|
    decreases fuel, n, 1, hi - i
  {
    if i == hi then Vals([], env, tr)
    else
      match Exec(m, n.children[i], env, tr, fuel)
      case Done(v, env1, tr1) =>
        (match ExecKids(m, n, i + 1, hi, env1, tr1, fuel)
         case Vals(vs, env2, tr2) => Vals([v] + vs, env2, tr2)
         case Early(o) => Early(o))
      case o => Early(o)
  }

  function ExecShortCircuit(m: Machine, n: Node, env: Env, tr: Trace, fuel: nat): Out
    requires ShapeOk(n) && ShortCircuit(n)
    decreases fuel, n, 1, 0
  {
    match Exec(m, n.children[0], env, tr, fuel)
    case Done(v, env1, tr1) =>
      (match m.truth(v)
       case None => Fault
       case Some(b) =>
         if b == (n.op == Tokens.Or) then Done(v, env1, tr1)
         else Exec(m, n.children[1], env1, tr1, fuel))
    case o => o
  }

  function ExecIf(m: Machine, n: Node, env: Env, tr: Trace, fuel: nat): Out
    requires ShapeOk(n) && n.kind == IfStmt
    decreases fuel, n, 1, 0
  {
    match Exec(m, n.children[0], env, tr, fuel)
    case Done(v, env1, tr1) =>
      (match m.truth(v)
       case None => Fault
       case Some(b) =>
         if b then Exec(m, n.children[1], env1, tr1, fuel)
         else if |n.children| == 3 then Exec(m, n.children[2], env1, tr1, fuel)
         else Done(Unit, env1, tr1))
    case o => o
  }

  /** A loop has the form `lp(init; cond; step){body}` or `lp(cond){body}`. */
  predicate IsWhile(n: Node) {
    |n.children| == 2
  }

  function CondAt(n: Node): nat {
    if IsWhile(n) then 0 else 1
  }

  function BodyAt(n: Node): nat {
    if IsWhile(n) then 1 else 3
  }

  /** The loop variable of the long form is bound. */
  function LoopStart(m: Machine, n: Node, env: Env, tr: Trace, fuel: nat): Out
    requires ShapeOk(n) && n.kind == LoopStmt
    decreases fuel, n, 1, 0
  {
    if IsWhile(n) then Done(Unit, env, tr) else Exec(m, n.children[0], env, tr, fuel)
  }

  function LoopStep(m: Machine, n: Node, env: Env, tr: Trace, fuel: nat): Out
    requires ShapeOk(n) && n.kind == LoopStmt
    decreases fuel, n, 1, 0
  {
    if IsWhile(n) then Done(Unit, env, tr) else Exec(m, n.children[2], env, tr, fuel)
  }

  /** The rounds of a loop once its variable is bound. */
  function Iterate(m: Machine, n: Node, env: Env, tr: Trace, fuel: nat): Out
    requires ShapeOk(n) && n.kind == LoopStmt
    decreases fuel, n, 1, 2
  {
    match Exec(m, n.children[CondAt(n)], env, tr, fuel)
    case Done(v, env1, tr1) =>
      (match m.truth(v)
       case None => Fault
       case Some(b) => if b then Round(m, n, env1, tr1, fuel) else Done(Unit, env1, tr1))
    case o => o
  }

  /** One round of a loop whose condition holds, and the rounds after it. */
  function Round(m: Machine, n: Node, env: Env, tr: Trace, fuel: nat): Out
    requires ShapeOk(n) && n.kind == LoopStmt
    decreases fuel, n, 1, 1
  {
    match Exec(m, n.children[BodyAt(n)], env, tr, fuel)
    case Broke(env1, tr1) => Done(Unit, env1, tr1)
    case Done(_, env1, tr1) =>
      (match LoopStep(m, n, env1, tr1, fuel)
       case Done(_, env2, tr2) =>
         if fuel == 0 then Timeout(tr2) else Iterate(m, n, env2, tr2, fuel - 1)
       case o => o)
    case o => o
  }

  /** The first arm from `i` on that matches `v` runs with its payload bound. */
  function ExecArms(m: Machine, n: Node, i: nat, v: Value, env: Env, tr: Trace, fuel: nat): Out
    requires 0 < i <= |n.children|
    decreases fuel, n, 1, |n.children| - i
  {
    if i == |n.children| then Fault
    else
      var arm := n.children[i];
      if arm.kind != MatchArm || |arm.children| != 3 || !IsIdent(arm.children[1]) then Fault
      else
        match m.matches(arm.children[0].text, v)
        case None => ExecArms(m, n, i + 1, v, env, tr, fuel)
        case Some(w) => Leaving(Exec(m, arm.children[2], env + [Slot(arm.children[1].text, w)], tr, fuel), |env|)
  }

  // ----- whole functions -----

  function ParamSlots(fn: Node, i: nat, args: seq<Value>): Option<Env>
    requires i <= |fn.children|
    decreases |fn.children| - i
  {
    if i == |fn.children| then if args == [] then Some([]) else None
    else
      var p := fn.children[i];
      if p.kind != Param then ParamSlots(fn, i + 1, args)
      else if |p.children| == 0 || !IsIdent(p.children[0]) || args == [] then None
      else
        match ParamSlots(fn, i + 1, args[1..])
        case None => None
        case Some(rest) => Some([Slot(p.children[0].text, args[0])] + rest)
  }

  /** What a caller of a function sees: a result (or none), the trace, or a run cut off by the fuel. */
  datatype FnOut = Result(v: Option<Value>, tr: Trace) | Cut(tr: Trace) | Failed

  function RunBody(m: Machine, body: Node, env: Option<Env>, fuel: nat): FnOut {
    match env
    case None => Failed
    case Some(env) =>
      match Exec(m, body, env, [], fuel)
      case Done(_, _, tr) => Result(None, tr)
      case Broke(_, _) => Failed
      case Returned(v, tr) => Result(Some(v), tr)
      case Fault => Failed
      case Timeout(tr) => Cut(tr)
  }

  /** Runs a `NODE_FUNC_DECL`, whose body is its last child. */
  function RunFn(m: Machine, fn: Node, args: seq<Value>, fuel: nat): FnOut {
    if fn.kind != FuncDecl || |fn.children| == 0 || fn.children[|fn.children| - 1].kind != StmtList then Failed
    else RunBody(m, fn.children[|fn.children| - 1], ParamSlots(fn, 0, args), fuel)
  }
}
