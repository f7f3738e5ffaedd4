/**
 A program that `--fix` does not settle.

 In `let a0=1; let a1=a0+a0; ...; <0` every `let` is used twice, except the last, which is not used at all.
 The rules for `let` find one fix in it, the deletion of the last `let`, and after it there is again one.
 A run makes at most 17 rewritings, so a longer chain is left with a fix to apply.
 */
module FixChain {
  import opened Wrappers
  import Tokens
  import opened Decimals
  import opened LintAst
  import opened LintUnused
  import opened FixSelection
  import opened FixEngine

  // ----- the trees -----

  function Var(i: nat): string { "a" + Decimal(i) }

  lemma VarsDiffer(i: nat, j: nat)
    requires Var(i) == Var(j)
    ensures i == j
  {
    assert Var(i)[1..] == Decimal(i) && Var(j)[1..] == Decimal(j);
    DecimalValue(i);
    DecimalValue(j);
  }

  function LetInit(i: nat): Node {
    if i == 0 then Node(IntLit, Tokens.Eof, "1", [])
    else Node(BinaryExpr, Tokens.Plus, "", [Name(Var(i - 1)), Name(Var(i - 1))])
  }

  function Let(i: nat): Node { Node(BindStmt, Tokens.Eof, "", [Name(Var(i)), LetInit(i)]) }

  /** `<0` */
  function Return(): Node { Node(ReturnStmt, Tokens.Eof, "", [Node(IntLit, Tokens.Eof, "0", [])]) }

  function Lets(n: nat): seq<Node> { seq(n, i requires 0 <= i < n => Let(i)) }

  function Body(n: nat): Node { Node(StmtList, Tokens.Eof, "", Lets(n) + [Return()]) }

  /** `f(){let a0=1; let a1=a0+a0; ...; <0}` with `n` bindings. */
  function Chain(n: nat): Node { Node(FuncDecl, Tokens.Eof, "", [Body(n)]) }

  // ----- the unused `let` -----

  lemma {:induction false} LeafUses(n: Node, x: string)
    requires n.children == []
    ensures IdentUsedIn(n, x) <==>
            || ((n.kind == Ident || n.kind == TypeIdent) && n.text == x)
            || (n.kind == StrLit && n.text != "" && InterpIdentCount(n.text, x) > 0)
  {}

  lemma {:induction false} PairUses(n: Node, x: string)
    requires |n.children| == 2 && n.kind != Ident && n.kind != TypeIdent && n.kind != StrLit
    ensures IdentUsedIn(n, x) <==> IdentUsedIn(n.children[0], x) || IdentUsedIn(n.children[1], x)
  {}

  lemma {:induction false} InitUses(j: nat, x: string)
    ensures IdentUsedIn(LetInit(j), x) <==> j > 0 && x == Var(j - 1)
  {
    if j == 0 {
      LeafUses(LetInit(j), x);
    } else {
      hide IdentUsedIn, Var;
      LeafUses(Name(Var(j - 1)), x);
      PairUses(LetInit(j), x);
    }
  }

  /** A `let` mentions its own name and the one before. */
  lemma {:induction false} LetUses(j: nat, i: nat)
    ensures IdentUsedIn(Let(j), Var(i)) <==> j == i || j == i + 1
  {
    hide IdentUsedIn, Var;
    LeafUses(Name(Var(j)), Var(i));
    InitUses(j, Var(i));
    PairUses(Let(j), Var(i));
    if Var(i) == Var(j) { VarsDiffer(i, j); }
    if j > 0 && Var(i) == Var(j - 1) { VarsDiffer(i, j - 1); }
  }

  lemma {:induction false} ReturnUses(x: string)
    ensures !IdentUsedIn(Return(), x)
  {
    LeafUses(Return().children[0], x);
  }

  lemma {:induction false} InitInert(i: nat)
    ensures ExprIsInert(LetInit(i))
  {}

  lemma BodyAt(n: nat, j: nat)
    requires j <= n
    ensures |Body(n).children| == n + 1 && Body(n).children[j] == if j < n then Let(j) else Return()
  {}

  /** The unused-`let` rule can delete the last `let`, and no other statement. */
  lemma {:induction false} UnusedIff(n: nat, i: nat)
    ensures UnusedFixable(Chain(n), i) <==> i + 1 == n
  {
    var body := Body(n);
    BodyAt(n, if i <= n then i else 0);
    if i < n {
      InitInert(i);
      hide IdentUsedIn, ExprIsInert, Var, LetInit;
      forall j | 0 <= j < n + 1 && j != i ensures IdentUsedIn(body.children[j], Var(i)) <==> j == i + 1 && j < n {
        BodyAt(n, j);
        if j < n { LetUses(j, i); } else { ReturnUses(Var(i)); }
      }
      if i + 1 < n { assert IdentUsedIn(body.children[i + 1], Var(i)); }
    }
  }

  lemma {:induction false} DeleteLast(n: nat)
    requires n > 0
    ensures UnusedFixable(Chain(n), n - 1) && Delete(Chain(n), n - 1) == Chain(n - 1)
  {
    UnusedIff(n, n - 1);
    hide UnusedFixable, Let;
    var cs := Body(n).children;
    assert cs[..n - 1] + cs[n..] == Body(n - 1).children;
    assert Chain(n).children[0 := Body(n - 1)] == [Body(n - 1)];
  }

  // ----- no single-use `let` -----

  /** A name is referenced an even number of times. */
  predicate Even(c: RefCount) { c.interpRefs == 0 && c.astRefs % 2 == 0 }

  lemma EvenPlus(a: RefCount, b: RefCount)
    requires Even(a) && Even(b)
    ensures Even(a.Plus(b))
  {}

  lemma {:induction false} LetEven(j: nat, idx: nat, x: string, ex: Option<seq<nat>>)
    requires ex == None || ex == Some([])
    ensures Even(CountRefs(Let(j), StmtList, idx, x, ex))
  {
    if ex == None {
      var t := Let(j);
      hide Var;
      assert CountKids(t, 2, x, None) == NoRefs();
      InitEven(j, x);
      var lhs := CountRefs(t.children[0], BindStmt, 0, x, None);
      assert Even(lhs);
      hide CountRefs;
      assert CountKids(t, 1, x, None) == CountRefs(t.children[1], BindStmt, 1, x, None).Plus(NoRefs());
      EvenPlus(CountRefs(t.children[1], BindStmt, 1, x, None), NoRefs());
      EvenPlus(lhs, CountKids(t, 1, x, None));
      CountOpens(t, StmtList, idx, x);
    }
  }

  lemma {:induction false} CountOpens(n: Node, pk: Kind, idx: nat, x: string)
    requires n.kind != Ident && n.kind != StrLit
    ensures CountRefs(n, pk, idx, x, None) == CountKids(n, 0, x, None)
  {}

  lemma {:induction false} InitEven(j: nat, x: string)
    ensures Even(CountRefs(LetInit(j), BindStmt, 1, x, None))
  {
    var t := LetInit(j);
    CountOpens(t, BindStmt, 1, x);
    if j > 0 {
      hide Var;
      var c := CountRefs(t.children[0], BinaryExpr, 0, x, None);
      SameTwice(t.children[0], x);
      hide CountRefs, RefCount.Plus;
      assert CountKids(t, 2, x, None) == NoRefs();
      assert CountKids(t, 1, x, None) == c.Plus(NoRefs());
      PlusNone(c);
      TwiceEven(c);
    }
  }

  lemma TwiceEven(c: RefCount)
    requires c.interpRefs == 0
    ensures Even(c.Plus(c))
  {}

  lemma {:induction false} SameTwice(n: Node, x: string)
    requires n.kind == Ident
    ensures CountRefs(n, BinaryExpr, 0, x, None) == CountRefs(n, BinaryExpr, 1, x, None)
    ensures CountRefs(n, BinaryExpr, 0, x, None).interpRefs == 0
  {}

  lemma {:induction false} ReturnEven(idx: nat, x: string, ex: Option<seq<nat>>)
    requires ex == None || ex == Some([])
    ensures Even(CountRefs(Return(), StmtList, idx, x, ex))
  {
    var t := Return();
    assert CountKids(t.children[0], 0, x, None) == NoRefs();
    assert CountKids(t, 1, x, None) == NoRefs();
  }

  lemma {:induction false} KidsEven(n: nat, k: nat, i: nat, x: string)
    requires k <= n + 1 && |Body(n).children| == n + 1
    ensures Even(CountKids(Body(n), k, x, Some([i])))
    decreases n + 1 - k
  {
    hide CountRefs, Let, Return;
    if k < n + 1 {
      BodyAt(n, k);
      assert [i][1..] == [];
      var ex := Below(Some([i]), k);
      if k < n { LetEven(k, k, x, ex); } else { ReturnEven(k, x, ex); }
      KidsEven(n, k + 1, i, x);
      EvenPlus(CountRefs(Body(n).children[k], StmtList, k, x, ex), CountKids(Body(n), k + 1, x, Some([i])));
    }
  }

  lemma {:induction false} ChainEven(n: nat, i: nat, x: string)
    ensures Even(CountRefs(Chain(n), Program, 0, x, Some([0] + [i])))
  {
    var fn, body := Chain(n), Body(n);
    BodyAt(n, 0);
    KidsEven(n, 0, i, x);
    assert ([0] + [i])[1..] == [i];
    assert CountRefs(body, FuncDecl, 0, x, Some([i])) == CountKids(body, 0, x, Some([i]));
    hide Body;
    assert CountKids(fn, 1, x, Some([0] + [i])) == NoRefs();
    EvenPlus(CountRefs(body, FuncDecl, 0, x, Some([i])), NoRefs());
  }

  /** The only statement list of the chain is its body. */
  lemma {:induction false} OneList(n: nat, path: seq<nat>)
    requires ValidPath(Chain(n), path) && At(Chain(n), path).kind == StmtList
    ensures path == [0]
  {
    if |path| >= 1 {
      assert path[0] == 0;
      var rest := path[1..];
      assert path == [0] + rest;
      if rest != [] {
        BodyAt(n, rest[0]);
        hide Var;
        NoListBelow(Body(n).children[rest[0]], rest[1..]);
      }
    }
  }

  predicate Listless(n: Node) { n.kind != StmtList && forall j | 0 <= j < |n.children| :: Listless(n.children[j]) }

  lemma {:induction false} NoListBelow(n: Node, path: seq<nat>)
    requires Listless(n) && ValidPath(n, path)
    ensures At(n, path).kind != StmtList
    decreases |path|
  {
    if path != [] { NoListBelow(n.children[path[0]], path[1..]); }
  }

  /** The single-use-`let` rule finds nothing in it. */
  lemma {:induction false} NoSingleUse(n: nat, path: seq<nat>, i: nat)
    ensures !SingleUseFixable(Chain(n), path, i)
  {
    if ValidPath(Chain(n), path) && At(Chain(n), path).kind == StmtList {
      OneList(n, path);
      var list := At(Chain(n), path);
      if i < |list.children| && |list.children[i].children| > 0 {
        ChainEven(n, i, list.children[i].children[0].text);
        hide Chain, At, CountRefs;
      }
    }
  }

  // ----- the texts -----

  function LetText(i: nat): string {
    "let " + Var(i) + "=" + (if i == 0 then "1" else Var(i - 1) + "+" + Var(i - 1)) + ";"
  }

  function LetsText(n: nat): string { if n == 0 then "" else LetsText(n - 1) + LetText(n - 1) }

  const HEAD := "m=c;f=f():i64{"
  const TAIL := "<0;};"

  /** The source text of the chain, on one line. */
  function ChainText(n: nat): string { HEAD + LetsText(n) + TAIL }

  /** The fix that deletes `let` number `i`: from its first character to behind its semicolon. */
  function Deletion(i: nat): Diag {
    Diag(true, |HEAD| + |LetsText(i)|, |HEAD| + |LetsText(i + 1)|, "")
  }

  /** On the text of a chain the linter reports, as fixable, what the unused-`let` rule finds in its tree. */
  ghost predicate Reports(lint: string -> Option<seq<Diag>>) {
    forall n: nat :: lint(ChainText(n)).Some? && Finds(lint(ChainText(n)).value, n)
  }

  ghost predicate Finds(items: seq<Diag>, n: nat) {
    forall d: Diag :: d in items && d.fixable <==> exists i: nat :: UnusedFixable(Chain(n), i) && d == Deletion(i)
  }

  lemma FindsOne(items: seq<Diag>, n: nat)
    requires Finds(items, n)
    ensures forall d: Diag :: d in items && d.fixable <==> n > 0 && d == Deletion(n - 1)
  {
    forall i: nat ensures UnusedFixable(Chain(n), i) <==> i + 1 == n { UnusedIff(n, i); }
    hide UnusedFixable, Deletion;
    if n > 0 { assert UnusedFixable(Chain(n), n - 1); }
  }

  // ----- there is such a linter -----

  lemma {:induction false} LetsGrow(m: nat, n: nat)
    requires m <= n
    ensures n - m <= |LetsText(n)| - |LetsText(m)|
  {
    hide LetText;
    if m < n {
      LetTextLong(n - 1);
      LetsGrow(m, n - 1);
    }
  }

  function OnlyFix(n: nat): seq<Diag> { if n == 0 then [] else [Deletion(n - 1)] }

  function ChainLint(text: string, n: nat): Option<seq<Diag>> {
    if text == ChainText(n) then Some(OnlyFix(n)) else if n == 0 then None else ChainLint(text, n - 1)
  }

  lemma {:induction false} ChainLinted(n: nat, k: nat)
    requires n <= k
    ensures ChainLint(ChainText(n), k) == Some(OnlyFix(n))
  {
    LetsGrow(n, k);
    assert |ChainText(k)| - |ChainText(n)| == |LetsText(k)| - |LetsText(n)|;
    hide ChainText, OnlyFix, LetsText;
    if n < k { ChainLinted(n, k - 1); }
  }

  lemma OnlyFixFinds(n: nat)
    ensures Finds(OnlyFix(n), n)
  {
    forall i: nat ensures UnusedFixable(Chain(n), i) <==> i + 1 == n { UnusedIff(n, i); }
    if n > 0 {
      assert Deletion(n - 1).fixable;
      hide UnusedFixable, Deletion, Chain;
      assert UnusedFixable(Chain(n), n - 1);
    }
  }

  lemma ChainReported(n: nat)
    ensures var text := ChainText(n);
            ChainLint(text, |text|).Some? && Finds(ChainLint(text, |text|).value, n)
  {
    LetsGrow(0, n);
    assert n <= |ChainText(n)|;
    hide *;
    ChainLinted(n, |ChainText(n)|);
    OnlyFixFinds(n);
  }

  /** The assumption about the linter can be met. */
  lemma SomeReports()
    ensures Reports(text => ChainLint(text, |text|))
  {
    hide ChainLint, ChainText, Finds;
    forall n: nat
      ensures ChainLint(ChainText(n), |ChainText(n)|).Some?
      ensures Finds(ChainLint(ChainText(n), |ChainText(n)|).value, n)
    {
      ChainReported(n);
    }
  }

  lemma DeletionSpan(n: nat)
    requires n > 0
    ensures var d, text := Deletion(n - 1), ChainText(n);
            && InRange(d, |text|) && d.start < d.end
            && text[..d.start] + text[d.end..] == ChainText(n - 1)
  {
    hide LetText;
    var d, text := Deletion(n - 1), ChainText(n);
    assert LetsText(n) == LetsText(n - 1) + LetText(n - 1);
    assert |LetText(n - 1)| > 0 by { LetTextLong(n - 1); }
    assert text[..d.start] == HEAD + LetsText(n - 1);
    assert text[d.end..] == TAIL;
  }

  lemma LetTextLong(i: nat)
    ensures |LetText(i)| > 0
  {
    hide Var;
  }

  /** One round takes the one fix. */
  lemma TakesOne(items: seq<Diag>, n: nat, taken: seq<nat>, t: string)
    requires Finds(items, n) && taken != [] && Applied(ChainText(n), items, taken, t)
    ensures n > 0 && t == ChainText(n - 1)
  {
    FindsOne(items, n);
    SomeFixable(ChainText(n), items, taken, t);
    DeletionIs(n - 1);
    hide Deletion, ChainText, Finds, Applied;
    DeletionSpan(n);
    TakenIs(ChainText(n), items, taken, t, Deletion(n - 1));
  }

  lemma SomeFixable(text: string, items: seq<Diag>, taken: seq<nat>, t: string)
    requires taken != [] && Applied(text, items, taken, t)
    ensures exists d :: d in items && d.fixable
  {
    assert taken[0] in taken && items[taken[0]] in items;
  }

  /** When all fixable items are the same, a round replaces that one span. */
  lemma TakenIs(text: string, items: seq<Diag>, taken: seq<nat>, t: string, d: Diag)
    requires taken != [] && Applied(text, items, taken, t) && InRange(d, |text|) && d.start < d.end
             && d.replacement == ""
    requires forall e | e in items && e.fixable :: e == d
    ensures t == text[..d.start] + text[d.end..]
  {
    hide Spans, Ascending, Substituted, Overlaps;
    assert forall k | k in taken :: k < |items| && items[k].fixable && items[k] in items;
    TakenTwice(text, items, taken, d);
    assert taken == [taken[0]];
    OneSpan(text, items, taken[0], d);
  }

  /** A fix that is taken twice does not overlap itself. */
  lemma TakenTwice(text: string, items: seq<Diag>, taken: seq<nat>, d: Diag)
    requires ValidOrder(items, taken) && Distinct(taken) && Compatible(items, (set i | i in taken), |text|)
    requires forall k | k in taken :: items[k] == d
    ensures |taken| > 1 ==> Apart(d, d)
  {
    if |taken| > 1 { assert taken[0] in taken && taken[1] in taken && taken[0] != taken[1]; }
  }

  lemma OneSpan(text: string, items: seq<Diag>, k: nat, d: Diag)
    requires k < |items| && items[k] == d && InRange(d, |text|) && d.replacement == ""
    ensures Ascending(Spans(items, [k]), 0, |text|)
    ensures Substituted(text, Spans(items, [k]), 0) == text[..d.start] + text[d.end..]
  {
    var ds := Spans(items, [k]);
    assert |ds| == 1 && ds[0] == d;
    assert ds[1..] == [];
    assert Ascending([], d.end, |text|) && Substituted(text, [], d.end) == text[d.end..];
    assert text[0..d.start] + "" == text[..d.start];
  }

  lemma ChainRewritten(lint: string -> Option<seq<Diag>>, n: nat, t: string)
    requires Reports(lint)
    ensures Rewrites(lint, ChainText(n), t) <==> n > 0 && t == ChainText(n - 1)
  {
    var text := ChainText(n);
    assert lint(text).Some? && Finds(lint(text).value, n);
    var items := lint(text).value;
    hide Reports, ChainText, Finds;
    if Rewrites(lint, text, t) {
      var taken :| taken != [] && Applied(text, items, taken, t) && Optimal(items, taken, |text|);
      TakesOne(items, n, taken, t);
    }
    if n > 0 && t == ChainText(n - 1) {
      var k := TheFix(items, n);
      assert [k] != [] && Applied(text, items, [k], t) && Optimal(items, [k], |text|);
    }
  }

  /** The one fix by itself is what a round may apply. */
  lemma TheFix(items: seq<Diag>, n: nat) returns (k: nat)
    requires Finds(items, n) && n > 0
    ensures Applied(ChainText(n), items, [k], ChainText(n - 1)) && Optimal(items, [k], |ChainText(n)|)
  {
    FindsOne(items, n);
    DeletionSpan(n);
    hide Deletion, ChainText, Finds, Applied, Optimal;
    var text, d := ChainText(n), Deletion(n - 1);
    assert d in items && d.fixable && d.replacement == "" by { DeletionIs(n - 1); }
    k :| 0 <= k < |items| && items[k] == d;
    AppliedOne(items, k, d, text);
  }

  lemma DeletionIs(i: nat)
    ensures Deletion(i).fixable && Deletion(i).replacement == ""
  {}

  lemma AppliedOne(items: seq<Diag>, k: nat, d: Diag, text: string)
    requires k < |items| && items[k] == d && d.fixable && InRange(d, |text|) && d.start < d.end && d.replacement == ""
    requires forall e | e in items && e.fixable :: e == d
    ensures Applied(text, items, [k], text[..d.start] + text[d.end..]) && Optimal(items, [k], |text|)
  {
    OneSpan(text, items, k, d);
    Covers(items, k, d, |text|);
    hide Spans, Ascending, Substituted, Compatible, Overlaps;
    forall chosen: set<nat> | Compatible(items, chosen, |text|) ensures |chosen| <= |[k]| {
      AtMostOne(items, chosen, |text|, d);
    }
  }

  /** The one fix is compatible, and every other report of it overlaps it. */
  lemma Covers(items: seq<Diag>, k: nat, d: Diag, len: nat)
    requires k < |items| && items[k] == d && d.fixable && InRange(d, len) && d.start < d.end
    requires forall e | e in items && e.fixable :: e == d
    ensures Compatible(items, (set i | i in [k]), len) && Distinct([k])
    ensures forall i | 0 <= i < |items| && items[i].fixable && i !in [k] :: Overlaps(items, i, [k])
  {
    forall i | 0 <= i < |items| && items[i].fixable && i !in [k] ensures Overlaps(items, i, [k]) {
      assert items[i] in items;
      assert k in [k] && !Apart(items[i], items[k]);
    }
  }

  lemma AtMostOne(items: seq<Diag>, chosen: set<nat>, len: nat, d: Diag)
    requires Compatible(items, chosen, len) && d.start < d.end
    requires forall e | e in items && e.fixable :: e == d
    ensures |chosen| <= 1
  {
    if chosen != {} {
      var c :| c in chosen;
      assert forall e | e in chosen :: items[e] in items;
      assert !Apart(d, d);
      assert chosen == {c};
    }
  }

  // ----- runs -----

  /** A run that starts at a chain shortens it by one `let` a rewriting. */
  lemma {:induction false} TrailShortens(lint: string -> Option<seq<Diag>>, n: nat, trail: seq<string>, to: string,
                                         k: nat)
    requires Reports(lint) && Trail(lint, trail, ChainText(n), to) && k < |trail|
    ensures k <= n && trail[k] == ChainText(n - k)
    decreases k
  {
    hide Reports, ChainText, Rewrites;
    if k > 0 {
      TrailShortens(lint, n, trail, to, k - 1);
      assert Rewrites(lint, trail[k - 1], trail[k - 1 + 1]);
      ChainRewritten(lint, n - (k - 1), trail[k]);
    }
  }

  lemma LongTrail(lint: string -> Option<seq<Diag>>, n: nat, len: nat) returns (trail: seq<string>)
    requires Reports(lint) && len <= n
    ensures |trail| == len + 1 && Trail(lint, trail, ChainText(n), ChainText(n - len))
  {
    hide Reports, ChainText, Rewrites;
    trail := seq(len + 1, k requires 0 <= k <= len => ChainText(n - k));
    forall k | 0 <= k < |trail| - 1 ensures Rewrites(lint, trail[k], trail[k + 1]) {
      ChainRewritten(lint, n - k, trail[k + 1]);
    }
  }

  /** The rounds are enough for a chain exactly when it has at most 16 bindings. */
  lemma ChainSettlesIff(lint: string -> Option<seq<Diag>>, n: nat)
    requires Reports(lint)
    ensures Settles(lint, ChainText(n)) <==> n <= 16
  {
    hide Reports, ChainText, Rewrites;
    if n <= MAX_ROUNDS {
      forall trail, to | Trail(lint, trail, ChainText(n), to) ensures |trail| < MAX_ROUNDS + 2 {
        TrailShortens(lint, n, trail, to, |trail| - 1);
      }
    } else {
      var trail := LongTrail(lint, n, MAX_ROUNDS + 1);
    }
  }

  lemma FixpointIff(lint: string -> Option<seq<Diag>>, n: nat)
    requires Reports(lint)
    ensures lint(ChainText(n)).Some? && (AtFixpoint(lint, ChainText(n)) <==> n == 0)
  {
    assert lint(ChainText(n)).Some? && Finds(lint(ChainText(n)).value, n);
    FindsOne(lint(ChainText(n)).value, n);
    if n > 0 {
      DeletionSpan(n);
      hide Reports, ChainText, Finds, Deletion;
      assert Deletion(n - 1) in lint(ChainText(n)).value && Deletion(n - 1).fixable;
    }
  }

  /** `--fix` on a chain: the run succeeds and deletes at most 17 bindings, the last first.  What is left is
      free of fixes exactly when there were no more than 17. */
  method ChainRun(n: nat, lint: string -> Option<seq<Diag>>) returns (ok: bool, buf: TextBuf)
    requires Reports(lint)
    ensures buf.Valid() && ok && buf.Text() == ChainText(if n <= 17 then 0 else n - 17)
    ensures AtFixpoint(lint, buf.Text()) <==> n <= 17
  {
    hide Reports, ChainText, AtFixpoint, Settles, Rewrites;
    var total, rounds;
    ghost var trail;
    ok, buf, total, rounds, trail := RunFix(ChainText(n), lint);
    ghost var last := |trail| - 1;
    TrailShortens(lint, n, trail, buf.Text(), last);
    FixpointIff(lint, n - last);
  }
}
