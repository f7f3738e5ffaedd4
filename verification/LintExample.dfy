/**
 What the core language computes, on a program with a loop, a branch, a short-circuit operator, assignments and
 a call in every round: for all arguments the result and the trace are the ones that arithmetic gives.

 ```
 f(n,k){let s=mut.0; lp(let i=0;i<n;i=i+1){if(0<i&&i<k){s=s+i}el{s=s-i}; g(s,i)}; <s}
 ```
 */
module LintExample {
  import opened Wrappers
  import Tokens
  import opened LintAst
  import opened LintSemantics

  // ----- integers -----

  function Arith(op: Tokens.TokenKind, vs: seq<Value>): Option<Value> {
    if |vs| != 2 || !vs[0].IntV? || !vs[1].IntV? then None
    else if op == Tokens.Plus then Some(IntV(vs[0].n + vs[1].n))
    else if op == Tokens.Minus then Some(IntV(vs[0].n - vs[1].n))
    else if op == Tokens.Lt then Some(BoolV(vs[0].n < vs[1].n))
    else None
  }

  function Integers(): Machine {
    Machine((kind, text) => if text == "0" then Some(IntV(0)) else if text == "1" then Some(IntV(1)) else None,
            name => if name == "g" then Some(StrV("g")) else None,
            (kind, op, text, vs) => Arith(op, vs), (v: Value) => if v.BoolV? then Some(v.b) else None,
            (vs, tr) => Some(Unit), v => Stuck, (p, v) => None)
  }

  // ----- the program -----

  function Nd(kind: Kind, children: seq<Node>): Node { Node(kind, Tokens.Eof, "", children) }

  function Id(x: string): Node { Node(Ident, Tokens.Eof, x, []) }

  function Num(text: string): Node { Node(IntLit, Tokens.Eof, text, []) }

  function Bin(op: Tokens.TokenKind, l: Node, r: Node): Node { Node(BinaryExpr, op, "", [l, r]) }

  function Test(): Node { Bin(Tokens.And, Bin(Tokens.Lt, Num("0"), Id("i")), Bin(Tokens.Lt, Id("i"), Id("k"))) }

  function Add(): Node { Nd(AssignStmt, [Id("s"), Bin(Tokens.Plus, Id("s"), Id("i"))]) }

  function Sub(): Node { Nd(AssignStmt, [Id("s"), Bin(Tokens.Minus, Id("s"), Id("i"))]) }

  function Branch(): Node { Nd(IfStmt, [Test(), Nd(StmtList, [Add()]), Nd(StmtList, [Sub()])]) }

  function Call(): Node { Nd(ExprStmt, [Nd(CallExpr, [Id("g"), Id("s"), Id("i")])]) }

  function Body(): Node { Nd(StmtList, [Branch(), Call()]) }

  function Step(): Node { Nd(AssignStmt, [Id("i"), Bin(Tokens.Plus, Id("i"), Num("1"))]) }

  function Loop(): Node {
    Nd(LoopStmt, [Nd(LoopInit, [Id("i"), Num("0")]), Bin(Tokens.Lt, Id("i"), Id("n")), Step(), Body()])
  }

  function Start(): Node { Nd(MutBindStmt, [Id("s"), Num("0")]) }

  function Finish(): Node { Nd(ReturnStmt, [Id("s")]) }

  function Example(): Node {
    Nd(FuncDecl, [Nd(Param, [Id("n")]), Nd(Param, [Id("k")]), Nd(StmtList, [Start(), Loop(), Finish()])])
  }

  // ----- what it computes -----

  function Sum(k: int, i: nat): int {
    if i == 0 then 0 else Sum(k, i - 1) + if 0 < i - 1 < k then i - 1 else -(i - 1)
  }

  function Log(k: int, i: nat): Trace {
    if i == 0 then [] else Log(k, i - 1) + [Called([StrV("g"), IntV(Sum(k, i)), IntV(i - 1)])]
  }

  function State(n: int, k: int, s: int, i: int): Env {
    [Slot("n", IntV(n)), Slot("k", IntV(k)), Slot("s", IntV(s)), Slot("i", IntV(i))]
  }

  predicate Gives(e: Node, env: Env, tr: Trace, fuel: nat, v: Value) {
    Exec(Integers(), e, env, tr, fuel) == Done(v, env, tr)
  }

  // ----- rules -----

  lemma Innermost(env: Env, s: Slot)
    ensures Lookup(env + [s], s.name) == Some(s.val)
    ensures forall x | x != s.name :: Lookup(env + [s], x) == Lookup(env, x)
  {
    assert (env + [s])[..|env|] == env;
  }

  lemma StateLookup(n: int, k: int, s: int, i: int)
    ensures var e := State(n, k, s, i);
            && Lookup(e, "n") == Some(IntV(n)) && Lookup(e, "k") == Some(IntV(k))
            && Lookup(e, "s") == Some(IntV(s)) && Lookup(e, "i") == Some(IntV(i)) && Lookup(e, "g") == None
  {
    var a, b, c, d := Slot("n", IntV(n)), Slot("k", IntV(k)), Slot("s", IntV(s)), Slot("i", IntV(i));
    Innermost([], a);
    Innermost([a], b);
    Innermost([a, b], c);
    Innermost([a, b, c], d);
    assert [] + [a] == [a] && [a] + [b] == [a, b] && [a, b] + [c] == [a, b, c] && [a, b, c] + [d] == State(n, k, s, i);
    assert Lookup([], "g") == None;
  }

  lemma StateUpdate(n: int, k: int, s: int, i: int, v: int)
    ensures Update(State(n, k, s, i), "i", IntV(v)) == Some(State(n, k, s, v))
    ensures Update(State(n, k, s, i), "s", IntV(v)) == Some(State(n, k, v, i))
  {
    var e := State(n, k, s, i);
    var c := Slot("s", IntV(s));
    assert e[..3] == [e[0], e[1], c] && [e[0], e[1], c][2 := Slot("s", IntV(v))] == State(n, k, v, i)[..3];
    assert State(n, k, v, i)[..3] + [e[3]] == State(n, k, v, i);
    assert e[3 := Slot("i", IntV(v))] == State(n, k, s, v);
  }

  lemma {:induction false} NameRule(x: string, env: Env, tr: Trace, fuel: nat, v: Value)
    requires Lookup(env, x) == Some(v) || (Lookup(env, x) == None && Integers().global(x) == Some(v))
    ensures Gives(Id(x), env, tr, fuel, v)
  {
    hide Lookup;
    assert ExecKids(Integers(), Id(x), 0, 0, env, tr, fuel) == Vals([], env, tr);
  }

  lemma {:induction false} NumRule(text: string, env: Env, tr: Trace, fuel: nat)
    requires text == "0" || text == "1"
    ensures Gives(Num(text), env, tr, fuel, IntV(if text == "0" then 0 else 1))
  {
    assert ExecKids(Integers(), Num(text), 0, 0, env, tr, fuel) == Vals([], env, tr);
  }

  lemma {:induction false} OneKid(n: Node, i: nat, env: Env, tr: Trace, fuel: nat, v: Value)
    requires i < |n.children| && Gives(n.children[i], env, tr, fuel, v)
    ensures ExecKids(Integers(), n, i, i + 1, env, tr, fuel) == Vals([v], env, tr)
  {
    hide Exec;
    assert ExecKids(Integers(), n, i + 1, i + 1, env, tr, fuel) == Vals([], env, tr);
  }

  lemma {:induction false} BinRule(
    op: Tokens.TokenKind, l: Node, r: Node, env: Env, tr: Trace, fuel: nat, a: int, b: int)
    requires op == Tokens.Plus || op == Tokens.Minus || op == Tokens.Lt
    requires Gives(l, env, tr, fuel, IntV(a)) && Gives(r, env, tr, fuel, IntV(b))
    ensures Gives(Bin(op, l, r), env, tr, fuel, Arith(op, [IntV(a), IntV(b)]).value)
  {
    var n := Bin(op, l, r);
    OneKid(n, 1, env, tr, fuel, IntV(b));
    assert ExecKids(Integers(), n, 0, 2, env, tr, fuel) == Vals([IntV(a), IntV(b)], env, tr) by {
      hide Exec;
      assert [IntV(a)] + [IntV(b)] == [IntV(a), IntV(b)];
    }
    hide ExecKids;
  }

  lemma {:induction false} AssignRule(x: string, e: Node, env: Env, tr: Trace, fuel: nat, v: Value, env': Env)
    requires x != "" && Gives(e, env, tr, fuel, v) && Update(env, x, v) == Some(env')
    ensures Exec(Integers(), Nd(AssignStmt, [Id(x), e]), env, tr, fuel) == Done(Unit, env', tr)
  {
    var n := Nd(AssignStmt, [Id(x), e]);
    OneKid(n, 1, env, tr, fuel, v);
    hide ExecKids, Update;
  }

  lemma {:induction false} BindRule(kind: Kind, x: string, e: Node, env: Env, tr: Trace, fuel: nat, v: Value)
    requires (kind == MutBindStmt || kind == LoopInit) && x != "" && Gives(e, env, tr, fuel, v)
    ensures Exec(Integers(), Nd(kind, [Id(x), e]), env, tr, fuel) == Done(Unit, env + [Slot(x, v)], tr)
  {
    var n := Nd(kind, [Id(x), e]);
    OneKid(n, 1, env, tr, fuel, v);
    hide ExecKids;
  }

  lemma {:induction false} ReturnRule(e: Node, env: Env, tr: Trace, fuel: nat, v: Value)
    requires Gives(e, env, tr, fuel, v)
    ensures Exec(Integers(), Nd(ReturnStmt, [e]), env, tr, fuel) == Returned(v, tr)
  {
    var n := Nd(ReturnStmt, [e]);
    OneKid(n, 0, env, tr, fuel, v);
    hide ExecKids;
  }

  /** A block of one statement that leaves the number of slots as it is. */
  lemma {:induction false} BlockRule(e: Node, env: Env, tr: Trace, fuel: nat, v: Value, env': Env, tr': Trace)
    requires Exec(Integers(), e, env, tr, fuel) == Done(v, env', tr') && |env'| == |env|
    ensures Exec(Integers(), Nd(StmtList, [e]), env, tr, fuel) == Done(v, env', tr')
  {
    var n := Nd(StmtList, [e]);
    assert ExecKids(Integers(), n, 0, 1, env, tr, fuel) == Vals([v], env', tr') by {
      hide Exec;
      assert ExecKids(Integers(), n, 1, 1, env', tr', fuel) == Vals([], env', tr');
    }
    hide ExecKids;
  }

  lemma {:induction false} AndRule(l: Node, r: Node, env: Env, tr: Trace, fuel: nat, a: bool, b: bool)
    requires Gives(l, env, tr, fuel, BoolV(a)) && Gives(r, env, tr, fuel, BoolV(b))
    ensures Gives(Bin(Tokens.And, l, r), env, tr, fuel, BoolV(a && b))
  {
    hide ExecKids;
    var n := Bin(Tokens.And, l, r);
    assert ShapeOk(n) && ShortCircuit(n) && n.children[0] == l && n.children[1] == r;
    assert Exec(Integers(), n, env, tr, fuel) == ExecShortCircuit(Integers(), n, env, tr, fuel);
    hide Exec;
    assert Integers().truth(BoolV(a)) == Some(a);
  }

  lemma {:induction false} IfRule(c: Node, t: Node, e: Node, env: Env, tr: Trace, fuel: nat, b: bool)
    requires Gives(c, env, tr, fuel, BoolV(b))
    ensures Exec(Integers(), Nd(IfStmt, [c, t, e]), env, tr, fuel)
            == Exec(Integers(), if b then t else e, env, tr, fuel)
  {
    hide ExecKids;
  }

  // ----- one round -----

  lemma {:induction false} TestRule(n: int, k: int, s: int, i: int, tr: Trace, fuel: nat)
    ensures Gives(Test(), State(n, k, s, i), tr, fuel, BoolV(0 < i < k))
    ensures Gives(Bin(Tokens.Lt, Id("i"), Id("n")), State(n, k, s, i), tr, fuel, BoolV(i < n))
  {
    hide Exec, Gives;
    var env := State(n, k, s, i);
    StateLookup(n, k, s, i);
    NumRule("0", env, tr, fuel);
    NameRule("i", env, tr, fuel, IntV(i));
    NameRule("k", env, tr, fuel, IntV(k));
    NameRule("n", env, tr, fuel, IntV(n));
    BinRule(Tokens.Lt, Num("0"), Id("i"), env, tr, fuel, 0, i);
    BinRule(Tokens.Lt, Id("i"), Id("k"), env, tr, fuel, i, k);
    BinRule(Tokens.Lt, Id("i"), Id("n"), env, tr, fuel, i, n);
    AndRule(Bin(Tokens.Lt, Num("0"), Id("i")), Bin(Tokens.Lt, Id("i"), Id("k")), env, tr, fuel, 0 < i, i < k);
  }

  lemma {:induction false} BranchRule(n: int, k: int, s: int, i: int, tr: Trace, fuel: nat)
    ensures Exec(Integers(), Branch(), State(n, k, s, i), tr, fuel)
            == Done(Unit, State(n, k, if 0 < i < k then s + i else s - i, i), tr)
  {
    hide Exec, Gives;
    var env := State(n, k, s, i);
    var op := if 0 < i < k then Tokens.Plus else Tokens.Minus;
    var v := if 0 < i < k then s + i else s - i;
    TestRule(n, k, s, i, tr, fuel);
    StateLookup(n, k, s, i);
    StateUpdate(n, k, s, i, v);
    NameRule("s", env, tr, fuel, IntV(s));
    NameRule("i", env, tr, fuel, IntV(i));
    BinRule(op, Id("s"), Id("i"), env, tr, fuel, s, i);
    AssignRule("s", Bin(op, Id("s"), Id("i")), env, tr, fuel, IntV(v), State(n, k, v, i));
    BlockRule(Nd(AssignStmt, [Id("s"), Bin(op, Id("s"), Id("i"))]), env, tr, fuel, Unit, State(n, k, v, i), tr);
    IfRule(Test(), Nd(StmtList, [Add()]), Nd(StmtList, [Sub()]), env, tr, fuel, 0 < i < k);
  }

  lemma {:induction false} CallRule(n: int, k: int, s: int, i: int, tr: Trace, fuel: nat)
    ensures var env := State(n, k, s, i);
            Exec(Integers(), Call(), env, tr, fuel)
            == Done(Unit, env, tr + [Called([StrV("g"), IntV(s), IntV(i)])])
  {
    var env := State(n, k, s, i);
    StateLookup(n, k, s, i);
    NameRule("g", env, tr, fuel, StrV("g"));
    NameRule("s", env, tr, fuel, IntV(s));
    NameRule("i", env, tr, fuel, IntV(i));
    var call := Nd(CallExpr, [Id("g"), Id("s"), Id("i")]);
    var tr' := tr + [Called([StrV("g"), IntV(s), IntV(i)])];
    hide State, Lookup, Exec;
    ThreeKids(call, env, tr, fuel, StrV("g"), IntV(s), IntV(i));
    Applied(call, env, tr, fuel, [StrV("g"), IntV(s), IntV(i)]);
    ExprRule(call, env, tr, fuel, Unit, env, tr');
  }

  lemma {:induction false} Applied(n: Node, env: Env, tr: Trace, fuel: nat, vs: seq<Value>)
    requires n.kind == CallExpr && ExecKids(Integers(), n, 0, |n.children|, env, tr, fuel) == Vals(vs, env, tr)
    ensures Exec(Integers(), n, env, tr, fuel) == Done(Unit, env, tr + [Called(vs)])
  {
    hide ExecKids;
  }

  lemma {:induction false} ThreeKids(n: Node, env: Env, tr: Trace, fuel: nat, a: Value, b: Value, c: Value)
    requires |n.children| == 3 && Gives(n.children[0], env, tr, fuel, a)
    requires Gives(n.children[1], env, tr, fuel, b) && Gives(n.children[2], env, tr, fuel, c)
    ensures ExecKids(Integers(), n, 0, 3, env, tr, fuel) == Vals([a, b, c], env, tr)
  {
    OneKid(n, 2, env, tr, fuel, c);
    hide Exec;
    assert ExecKids(Integers(), n, 1, 3, env, tr, fuel) == Vals([b, c], env, tr) by { assert [b] + [c] == [b, c]; }
    assert [a] + [b, c] == [a, b, c];
  }

  lemma {:induction false} ExprRule(e: Node, env: Env, tr: Trace, fuel: nat, v: Value, env': Env, tr': Trace)
    requires Exec(Integers(), e, env, tr, fuel) == Done(v, env', tr')
    ensures Exec(Integers(), Nd(ExprStmt, [e]), env, tr, fuel) == Done(v, env', tr')
  {
    var n := Nd(ExprStmt, [e]);
    assert ExecKids(Integers(), n, 0, 1, env, tr, fuel) == Vals([v], env', tr') by {
      hide Exec;
      assert ExecKids(Integers(), n, 1, 1, env', tr', fuel) == Vals([], env', tr');
    }
    hide ExecKids;
  }

  lemma {:induction false} BodyRule(n: int, k: int, s: int, i: int, tr: Trace, fuel: nat)
    ensures var v := if 0 < i < k then s + i else s - i;
            Exec(Integers(), Body(), State(n, k, s, i), tr, fuel)
            == Done(Unit, State(n, k, v, i), tr + [Called([StrV("g"), IntV(v), IntV(i)])])
  {
    var v := if 0 < i < k then s + i else s - i;
    var env, env', tr' := State(n, k, s, i), State(n, k, v, i), tr + [Called([StrV("g"), IntV(v), IntV(i)])];
    BranchRule(n, k, s, i, tr, fuel);
    CallRule(n, k, v, i, tr, fuel);
    TwoRule(Branch(), Call(), env, tr, fuel, Unit, env', tr, Unit, env', tr');
  }

  /** A block of two statements. */
  lemma {:induction false} TwoRule(a: Node, b: Node, env: Env, tr: Trace, fuel: nat,
                                   v: Value, env1: Env, tr1: Trace, w: Value, env2: Env, tr2: Trace)
    requires Exec(Integers(), a, env, tr, fuel) == Done(v, env1, tr1)
    requires Exec(Integers(), b, env1, tr1, fuel) == Done(w, env2, tr2) && |env2| == |env|
    ensures Exec(Integers(), Nd(StmtList, [a, b]), env, tr, fuel) == Done(w, env2, tr2)
  {
    var n := Nd(StmtList, [a, b]);
    assert ExecKids(Integers(), n, 0, 2, env, tr, fuel) == Vals([v, w], env2, tr2) by {
      hide Exec;
      assert ExecKids(Integers(), n, 2, 2, env2, tr2, fuel) == Vals([], env2, tr2);
      assert ExecKids(Integers(), n, 1, 2, env1, tr1, fuel) == Vals([w], env2, tr2);
      assert [v] + [w] == [v, w];
    }
    hide ExecKids;
  }

  lemma {:induction false} StepRule(n: int, k: int, s: int, i: int, tr: Trace, fuel: nat)
    ensures Exec(Integers(), Step(), State(n, k, s, i), tr, fuel) == Done(Unit, State(n, k, s, i + 1), tr)
  {
    hide Exec, Gives;
    var env := State(n, k, s, i);
    StateLookup(n, k, s, i);
    StateUpdate(n, k, s, i, i + 1);
    NameRule("i", env, tr, fuel, IntV(i));
    NumRule("1", env, tr, fuel);
    BinRule(Tokens.Plus, Id("i"), Num("1"), env, tr, fuel, i, 1);
    AssignRule("i", Bin(Tokens.Plus, Id("i"), Num("1")), env, tr, fuel, IntV(i + 1), State(n, k, s, i + 1));
  }

  // ----- the loop -----

  /** From round `i` on the loop runs to its end, when there is fuel for the rounds. */
  lemma {:induction false} LoopRule(n: int, k: int, i: nat, fuel: nat)
    requires i <= n && n - i <= fuel
    ensures Iterate(Integers(), Loop(), State(n, k, Sum(k, i), i), Log(k, i), fuel)
            == Done(Unit, State(n, k, Sum(k, n), n), Log(k, n))
    decreases n - i
  {
    var env, tr := State(n, k, Sum(k, i), i), Log(k, i);
    TestRule(n, k, Sum(k, i), i, tr, fuel);
    if i < n {
      BodyRule(n, k, Sum(k, i), i, tr, fuel);
      StepRule(n, k, Sum(k, i + 1), i, Log(k, i + 1), fuel);
      LoopRule(n, k, i + 1, fuel - 1);
      RoundIs(n, k, i, fuel);
    }
    hide State, Log, Sum, Step, Body;
    IterateIs(env, tr, fuel, i < n);
  }

  lemma {:induction false} IterateIs(env: Env, tr: Trace, fuel: nat, b: bool)
    requires Gives(Bin(Tokens.Lt, Id("i"), Id("n")), env, tr, fuel, BoolV(b))
    ensures Iterate(Integers(), Loop(), env, tr, fuel)
            == if b then Round(Integers(), Loop(), env, tr, fuel) else Done(Unit, env, tr)
  {
    hide Exec, Round;
  }

  lemma {:induction false} RoundIs(n: int, k: int, i: nat, fuel: nat)
    requires i < n && 0 < fuel
    ensures Round(Integers(), Loop(), State(n, k, Sum(k, i), i), Log(k, i), fuel)
            == Iterate(Integers(), Loop(), State(n, k, Sum(k, i + 1), i + 1), Log(k, i + 1), fuel - 1)
  {
    var env, tr := State(n, k, Sum(k, i), i), Log(k, i);
    BodyRule(n, k, Sum(k, i), i, tr, fuel);
    StepRule(n, k, Sum(k, i + 1), i, Log(k, i + 1), fuel);
    assert tr + [Called([StrV("g"), IntV(Sum(k, i + 1)), IntV(i)])] == Log(k, i + 1);
    hide Exec, Iterate, State, Body, Step, Log, Sum;
  }

  // ----- the whole function -----

  lemma {:induction false} LoopDone(n: nat, k: int, fuel: nat)
    requires n <= fuel
    ensures var env := State(n, k, 0, 0)[..3];
            Exec(Integers(), Loop(), env, [], fuel) == Done(Unit, State(n, k, Sum(k, n), n)[..3], Log(k, n))
  {
    var env := State(n, k, 0, 0)[..3];
    NumRule("0", env, [], fuel);
    BindRule(LoopInit, "i", Num("0"), env, [], fuel, IntV(0));
    assert env + [Slot("i", IntV(0))] == State(n, k, 0, 0);
    LoopRule(n, k, 0, fuel);
    assert Sum(k, 0) == 0 && Log(k, 0) == [];
    hide Iterate, Gives, Sum, Log;
    Started(env, State(n, k, 0, 0), fuel);
    assert |env| == 3;
  }

  lemma {:induction false} Started(env: Env, env': Env, fuel: nat)
    requires Exec(Integers(), Loop().children[0], env, [], fuel) == Done(Unit, env', [])
    ensures Exec(Integers(), Loop(), env, [], fuel) == Leaving(Iterate(Integers(), Loop(), env', [], fuel), |env|)
  {
    hide Iterate, Body, Step;
  }

  lemma {:induction false} BodyReturns(n: nat, k: int, fuel: nat)
    requires n <= fuel
    ensures var env := State(n, k, 0, 0)[..2];
            Exec(Integers(), Nd(StmtList, [Start(), Loop(), Finish()]), env, [], fuel)
            == Returned(IntV(Sum(k, n)), Log(k, n))
  {
    var env, env1, env2 := State(n, k, 0, 0)[..2], State(n, k, 0, 0)[..3], State(n, k, Sum(k, n), n)[..3];
    NumRule("0", env, [], fuel);
    BindRule(MutBindStmt, "s", Num("0"), env, [], fuel, IntV(0));
    assert env + [Slot("s", IntV(0))] == env1;
    LoopDone(n, k, fuel);
    Innermost(State(n, k, Sum(k, n), n)[..2], Slot("s", IntV(Sum(k, n))));
    assert State(n, k, Sum(k, n), n)[..2] + [Slot("s", IntV(Sum(k, n)))] == env2;
    NameRule("s", env2, Log(k, n), fuel, IntV(Sum(k, n)));
    ReturnRule(Id("s"), env2, Log(k, n), fuel, IntV(Sum(k, n)));
    hide State, Sum, Log, Exec;
    ThreeStatements(Start(), Loop(), Finish(), env, [], fuel, env1, [], env2, Log(k, n), IntV(Sum(k, n)));
  }

  /** Two statements and one that leaves the function. */
  lemma {:induction false} ThreeStatements(a: Node, b: Node, c: Node, env: Env, tr: Trace, fuel: nat,
                                           env1: Env, tr1: Trace, env2: Env, tr2: Trace, v: Value)
    requires Exec(Integers(), a, env, tr, fuel) == Done(Unit, env1, tr1)
    requires Exec(Integers(), b, env1, tr1, fuel) == Done(Unit, env2, tr2)
    requires Exec(Integers(), c, env2, tr2, fuel) == Returned(v, tr2)
    ensures Exec(Integers(), Nd(StmtList, [a, b, c]), env, tr, fuel) == Returned(v, tr2)
  {
    var n := Nd(StmtList, [a, b, c]);
    assert ExecKids(Integers(), n, 0, 3, env, tr, fuel) == Early(Returned(v, tr2)) by {
      hide Exec;
      assert ExecKids(Integers(), n, 2, 3, env2, tr2, fuel) == Early(Returned(v, tr2));
      assert ExecKids(Integers(), n, 1, 3, env1, tr1, fuel) == Early(Returned(v, tr2));
    }
    hide ExecKids;
  }

  /** Main theorem: for all arguments, and fuel for the rounds, the function returns the sum and has called `g`
      once in every round, with the sum so far. */
  lemma ProgramComputes(n: nat, k: int, fuel: nat)
    requires n <= fuel
    ensures RunFn(Integers(), Example(), [IntV(n), IntV(k)], fuel) == Result(Some(IntV(Sum(k, n))), Log(k, n))
  {
    BodyReturns(n, k, fuel);
    Slots(n, k);
    hide Exec, State, Sum, Log, Loop, Start, Finish, ParamSlots;
  }

  lemma Slots(n: int, k: int)
    ensures ParamSlots(Example(), 0, [IntV(n), IntV(k)]) == Some(State(n, k, 0, 0)[..2])
  {
    hide Loop, Start, Finish;
    var fn := Example();
    var args := [IntV(n), IntV(k)];
    var none: seq<Value> := [];
    assert args[1..] == [IntV(k)] && [IntV(k)][1..] == none;
    assert ParamSlots(fn, 3, none) == Some([]);
    assert ParamSlots(fn, 2, none) == Some([]);
    assert [Slot("k", IntV(k))] + [] == [Slot("k", IntV(k))];
    assert ParamSlots(fn, 1, [IntV(k)]) == Some([Slot("k", IntV(k))]);
    assert [Slot("n", IntV(n))] + [Slot("k", IntV(k))] == State(n, k, 0, 0)[..2];
  }
}
