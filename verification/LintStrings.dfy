/**
 Interpolated strings and the single-use-let fix.

 The parser hangs the expressions of `\(...)` below a string node (`attach_interp`).  The census stops
 at the string and scans its text, while the search walks into those expressions, and the two find the
 end of an interpolation differently.  The fix is sound when the scan counts what hangs below every string;
 at a quoted bracket it does not, and then a name is left without its `let`.
 */
module LintStrings {
  import opened Wrappers
  import opened Chars
  import Tokens
  import opened LintAst
  import opened LintSemantics
  import opened LintFrame
  import opened LintContext
  import opened LintInlineFix
  import opened LintUnused

  // ----- strings that are counted -----

  /** A string literal.  The parser hangs the expressions of its interpolations below it. */
  predicate IsString(n: Node) {
    n.kind == StrLit && n.text != ""
  }

  /** Every occurrence of `x` below a string is counted by the scan of the string's text. */
  predicate Counted(n: Node, x: string) {
    if IsString(n) then KidNodes(n, 0, x) <= InterpIdentCount(n.text, x)
    else forall j | 0 <= j < |n.children| :: Counted(n.children[j], x)
  }

  /** The place at `path` lies inside a string. */
  predicate InString(n: Node, path: seq<nat>)
    requires ValidPath(n, path)
    decreases |path|
  {
    path != [] && (IsString(n) || InString(n.children[path[0]], path[1..]))
  }

  /** All that the census counts. */
  function Sum(c: RefCount): nat { c.astRefs + c.interpRefs + c.binds + c.writes }

  lemma {:induction false} CensusOpens(n: Node, pk: Kind, idx: nat, x: string, ex: Option<seq<nat>>)
    requires n.kind != Ident && !IsString(n) && ex != Some([])
    ensures CountRefs(n, pk, idx, x, ex) == CountKids(n, 0, x, ex)
  {}

  lemma {:induction false} CensusKidsStep(n: Node, i: nat, x: string, ex: Option<seq<nat>>)
    requires i < |n.children|
    ensures Sum(CountKids(n, i, x, ex)) ==
            Sum(CountRefs(n.children[i], n.kind, i, x, Below(ex, i))) + Sum(CountKids(n, i + 1, x, ex))
  {
    hide CountRefs, Below;
  }

  /** Where strings are counted the census covers every occurrence. */
  lemma {:induction false} CensusCovers(n: Node, pk: Kind, idx: nat, x: string)
    requires Counted(n, x)
    ensures IdentNodes(n, pk, idx, x) <= Sum(CountRefs(n, pk, idx, x, None))
    decreases n, 1, 0
  {
    if n.kind == Ident {
      IdentCovered(n, pk, idx, x);
    } else {
      NodesOpen(n, pk, idx, x);
      if !IsString(n) {
        CensusOpens(n, pk, idx, x, None);
        KidsCovered(n, 0, x);
      }
    }
  }

  lemma {:induction false} IdentCovered(n: Node, pk: Kind, idx: nat, x: string)
    requires n.kind == Ident
    ensures IdentNodes(n, pk, idx, x) <= Sum(CountRefs(n, pk, idx, x, None))
  {
    assert Refs(n, pk, idx, x) == CountRefs(n, pk, idx, x, None);
    hide Refs, CountRefs;
  }

  lemma {:induction false} KidsCovered(n: Node, i: nat, x: string)
    requires i <= |n.children| && forall j | 0 <= j < |n.children| :: Counted(n.children[j], x)
    ensures KidNodes(n, i, x) <= Sum(CountKids(n, i, x, None))
    decreases n, 0, |n.children| - i
  {
    hide IdentNodes, KidNodes, CountRefs, Sum;
    if i < |n.children| {
      KidNodesStep(n, i, x);
      CensusKidsStep(n, i, x, None);
      CensusCovers(n.children[i], n.kind, i, x);
      KidsCovered(n, i + 1, x);
    } else {
      NodesOpen(n, Program, 0, x);
    }
  }

  /** The same with the node at `path` left out of the census, a place outside strings. */
  lemma {:induction false} CensusCoversRest(n: Node, pk: Kind, idx: nat, path: seq<nat>, x: string)
    requires Counted(n, x) && ValidPath(n, path) && !InString(n, path) && At(n, path).kind == BindStmt
    ensures IdentNodes(n, pk, idx, x) <=
            Sum(CountRefs(n, pk, idx, x, Some(path))) + IdentNodes(At(n, path), StmtList, 0, x)
    decreases |path|, 1, 0
  {
    hide IdentNodes, KidNodes, CountRefs, CountKids;
    NodesOpen(n, pk, idx, x);
    if path == [] {
      NodesOpen(n, StmtList, 0, x);
    } else {
      CensusOpens(n, pk, idx, x, Some(path));
      KidsCoveredRest(n, 0, path, x);
    }
  }

  lemma {:induction false} KidsCoveredRest(n: Node, i: nat, path: seq<nat>, x: string)
    requires n.kind != Ident && !IsString(n) && i <= |n.children| && Counted(n, x)
    requires path != [] && ValidPath(n, path) && !InString(n, path) && At(n, path).kind == BindStmt
    ensures KidNodes(n, i, x) <= Sum(CountKids(n, i, x, Some(path))) +
            if i <= path[0] then IdentNodes(At(n, path), StmtList, 0, x) else 0
    decreases |path|, 0, |n.children| - i
  {
    hide IdentNodes, KidNodes, CountRefs, Sum;
    if i < |n.children| {
      KidNodesStep(n, i, x);
      CensusKidsStep(n, i, x, Some(path));
      if i == path[0] {
        CensusCoversRest(n.children[i], n.kind, i, path[1..], x);
      } else {
        CensusCovers(n.children[i], n.kind, i, x);
      }
      KidsCoveredRest(n, i + 1, path, x);
    } else {
      NodesOpen(n, Program, 0, x);
    }
  }

  /** A `let` inside a string puts its name there twice, and the census sees it. */
  lemma {:induction false} LetInString(n: Node, pk: Kind, idx: nat, path: seq<nat>, i: nat, x: string)
    requires ValidPath(n, path) && InString(n, path) && Counted(n, x)
    requires At(n, path).kind == StmtList && IdentNodes(At(n, path), Program, 0, x) >= 2
    ensures Sum(CountRefs(n, pk, idx, x, Some(path + [i]))) >= 2
    decreases |path|
  {
    assert (path + [i])[0] == path[0] && (path + [i])[1..] == path[1..] + [i];
    if IsString(n) {
      NodesAt(n, pk, idx, path, x);
      NodesOpen(n, pk, idx, x);
    } else {
      LetInString(n.children[path[0]], n.kind, path[0], path[1..], i, x);
      CensusOpens(n, pk, idx, x, Some(path + [i]));
      KidSum(n, 0, path[0], x, Some(path + [i]));
    }
  }

  lemma {:induction false} KidSum(n: Node, i: nat, j: nat, x: string, ex: Option<seq<nat>>)
    requires i <= j < |n.children|
    ensures Sum(CountRefs(n.children[j], n.kind, j, x, Below(ex, j))) <= Sum(CountKids(n, i, x, ex))
    decreases j - i
  {
    hide CountRefs, Below, Sum;
    CensusKidsStep(n, i, x, ex);
    if i < j { KidSum(n, i + 1, j, x, ex); }
  }

  lemma {:induction false} PathBelow(n: Node, path: seq<nat>, i: nat)
    requires ValidPath(n, path) && At(n, path).kind == StmtList && i < |At(n, path).children| && !InString(n, path)
    ensures ValidPath(n, path + [i]) && At(n, path + [i]) == At(n, path).children[i] && !InString(n, path + [i])
    decreases |path|
  {
    if path == [] {
      assert [] + [i] == [i] && [i][1..] == [];
    } else {
      assert (path + [i])[0] == path[0] && (path + [i])[1..] == path[1..] + [i];
      PathBelow(n.children[path[0]], path[1..], i);
    }
  }

  /** When the scan of every string counts what hangs below it, a fixable `let` has one other occurrence of
      its name in the whole function, and none is left behind. */
  lemma {:induction false} CountedGone(fn: Node, path: seq<nat>, i: nat)
    requires SingleUseFixable(fn, path, i) && Counted(fn, At(fn, path).children[i].children[0].text)
    ensures var decl := At(fn, path).children[i];
            var x := decl.children[0].text;
            && IdentNodes(fn, Program, 0, x) == IdentNodes(decl, StmtList, i, x) + 1
            && IdentNodes(Inline(fn, path, i), Program, 0, x) == 0 && OnlyUse(At(fn, path), i)
  {
    var list := At(fn, path);
    var decl, x := list.children[i], list.children[i].children[0].text;
    assert IdentNodes(decl, StmtList, i, x) >= 1 by { LetNamed(decl, i, x); }
    NodesPlace(decl, i, x);
    hide IdentNodes, CountRefs, FindRef, IdentUsedIn, IsPureExpr, StmtWritesIdentOf, Inline, OnlyUse, InString, Counted;
    NameGoneIff(fn, path, i);
    if InString(fn, path) {
      TwiceInList(list, i, x);
      LetInString(fn, Program, 0, path, i, x);
    } else {
      PathBelow(fn, path, i);
      CensusCoversRest(fn, Program, 0, path + [i], x);
    }
  }

  lemma {:induction false} LetNamed(decl: Node, i: nat, x: string)
    requires decl.kind == BindStmt && |decl.children| > 0 && NameIs(decl.children[0], x)
    ensures IdentNodes(decl, StmtList, i, x) >= 1
  {
    hide IdentNodes, KidNodes;
    NodesOpen(decl, StmtList, i, x);
    KidNodesStep(decl, 0, x);
    BinderCounts(decl.children[0], x);
  }

  lemma {:induction false} BinderCounts(n: Node, x: string)
    requires NameIs(n, x)
    ensures IdentNodes(n, BindStmt, 0, x) == 1
  {
    assert Refs(n, BindStmt, 0, x) == One(Binder);
    hide Refs;
  }

  lemma {:induction false} NodesPlace(decl: Node, i: nat, x: string)
    requires decl.kind == BindStmt
    ensures IdentNodes(decl, StmtList, i, x) == IdentNodes(decl, StmtList, 0, x)
  {
    hide IdentNodes, KidNodes;
    NodesOpen(decl, StmtList, i, x);
    NodesOpen(decl, StmtList, 0, x);
  }

  lemma {:induction false} TwiceInList(list: Node, i: nat, x: string)
    requires list.kind == StmtList && i + 1 < |list.children|
    requires IdentNodes(list.children[i], StmtList, i, x) >= 1
    requires FindRef(list.children[i + 1], StmtList, i + 1, x, false).Some?
    ensures IdentNodes(list, Program, 0, x) >= 2
  {
    hide IdentNodes, FindRef, KidNodes;
    FoundIsCounted(list.children[i + 1], StmtList, i + 1, x, false);
    KidTotal(list, 0, i, x);
    KidTotal(list, i + 1, i + 1, x);
    NodesOpen(list, Program, 0, x);
  }

  /** The main theorem for functions whose strings are counted. */
  lemma InlineCounted(m: Machine, fn: Node, path: seq<nat>, i: nat, args: seq<Value>, fuel: nat)
    requires SingleUseFixable(fn, path, i) && Counted(fn, At(fn, path).children[i].children[0].text)
    ensures IdentNodes(Inline(fn, path, i), Program, 0, At(fn, path).children[i].children[0].text) == 0
    ensures RunFn(m, fn, args, fuel) != Failed ==>
              RunFn(m, Inline(fn, path, i), args, fuel) == RunFn(m, fn, args, fuel)
  {
    CountedGone(fn, path, i);
    InlinePreservesMeaning(m, fn, path, i, args, fuel);
  }

  // ----- what the parser hangs below a string -----

  /** `attach_interp`: the bracket that closes an interpolation, brackets in nested strings left out. */
  function AttachEnd(s: string, j: nat, depth: nat, inString: bool): (e: Option<nat>)
    requires depth > 0
    ensures e.Some? ==> j <= e.value < |s| && s[e.value] == ')'
    decreases |s| - j
  {
    if j + 1 >= |s| then None
    else if s[j] == '\\' && j + 2 < |s| then AttachEnd(s, j + 2, depth, inString)
    else if inString then AttachEnd(s, j + 1, depth, s[j] != '"')
    else if s[j] == '"' then AttachEnd(s, j + 1, depth, true)
    else if s[j] == '(' then AttachEnd(s, j + 1, depth + 1, false)
    else if s[j] == ')' then if depth == 1 then Some(j) else AttachEnd(s, j + 1, depth - 1, false)
    else AttachEnd(s, j + 1, depth, false)
  }

  /** The words `name` in `s[j..e]` that follow no dot: the tokens that can become references. */
  function SegWords(s: string, name: string, j: nat, e: nat): nat
    requires e <= |s|
    decreases if j < e then e - j else 0
  {
    if j >= e then 0
    else if IsLetter(s[j]) || s[j] == '_' then
      var k := WordEnd(s, j + 1);
      (if !(j > 0 && s[j - 1] == '.') && s[j..k] == name then 1 else 0) + SegWords(s, name, k, e)
    else SegWords(s, name, j + 1, e)
  }

  /** The words `name` in the segments from `i` on that `attach_interp` gives to the parser. */
  function AttachWords(s: string, name: string, i: nat): nat
    decreases |s| - i
  {
    if i + 2 >= |s| then 0
    else if s[i] != '\\' then AttachWords(s, name, i + 1)
    else if s[i + 1] != '(' then AttachWords(s, name, i + 2)
    else
      match AttachEnd(s, i + 2, 1, false)
      case None => 0
      case Some(e) => SegWords(s, name, i + 2, e) + AttachWords(s, name, e + 1)
  }

  /** No segment from `i` on holds a quote or a backslash. */
  predicate PlainFrom(s: string, i: nat)
    decreases |s| - i
  {
    if i + 2 >= |s| then true
    else if s[i] != '\\' then PlainFrom(s, i + 1)
    else if s[i + 1] != '(' then PlainFrom(s, i + 2)
    else
      match AttachEnd(s, i + 2, 1, false)
      case None => true
      case Some(e) => PlainSegment(s, i + 2, e) && PlainFrom(s, e + 1)
  }

  predicate PlainSegment(s: string, j: nat, e: nat)
    requires e <= |s|
  {
    forall k | j <= k < e :: s[k] != '"' && s[k] != '\\'
  }

  /** A word is no bracket and no quote: the bracket count passes over it. */
  lemma {:induction false} WordSkipped(s: string, j: nat, k: nat, depth: nat)
    requires depth > 0 && j <= k <= |s| && AttachEnd(s, j, depth, false).Some?
    requires forall q | j <= q < k :: IsWordChar(s[q])
    ensures AttachEnd(s, k, depth, false) == AttachEnd(s, j, depth, false)
    decreases k - j
  {
    if j < k { WordSkipped(s, j + 1, k, depth); }
  }

  lemma {:induction false} WordIsWord(s: string, k: nat)
    requires k <= |s|
    ensures forall q | k <= q < WordEnd(s, k) :: IsWordChar(s[q])
    decreases |s| - k
  {
    if k < |s| && IsWordChar(s[k]) { WordIsWord(s, k + 1); }
  }

  /** In a segment without quotes the scan of the text and the parser end at the same bracket. */
  lemma {:induction false} SegmentSame(s: string, name: string, j: nat, depth: nat, e: nat)
    requires depth > 0 && AttachEnd(s, j, depth, false) == Some(e) && PlainSegment(s, j, e)
    ensures InterpSegment(s, name, j, depth) == (SegWords(s, name, j, e), e)
    decreases |s| - j
  {
    if s[j] == '(' { SegmentSame(s, name, j + 1, depth + 1, e); }
    else if s[j] == ')' {
      if depth > 1 { SegmentSame(s, name, j + 1, depth - 1, e); }
    } else if IsLetter(s[j]) || s[j] == '_' {
      var k := WordEnd(s, j + 1);
      WordIsWord(s, j + 1);
      WordSkipped(s, j, k, depth);
      SegmentSame(s, name, k, depth, e);
    } else { SegmentSame(s, name, j + 1, depth, e); }
  }

  /** A string without quotes inside its interpolations is scanned as it is parsed. */
  lemma {:induction false} PlainScanned(s: string, name: string, i: nat)
    requires PlainFrom(s, i)
    ensures AttachWords(s, name, i) <= InterpCountFrom(s, name, i)
    decreases |s| - i
  {
    if i + 2 < |s| {
      if s[i] != '\\' { PlainScanned(s, name, i + 1); }
      else if s[i + 1] != '(' { PlainScanned(s, name, i + 2); }
      else {
        match AttachEnd(s, i + 2, 1, false)
        case None =>
        case Some(e) =>
          SegmentSame(s, name, i + 2, 1, e);
          PlainScanned(s, name, e + 1);
      }
    }
  }

  /** A tree as the parser builds it: the references below a string come from words of its segments. */
  predicate Parsed(n: Node, x: string) {
    if IsString(n) then n.text[0] == '"' && KidNodes(n, 0, x) <= AttachWords(n.text, x, 1)
    else forall j | 0 <= j < |n.children| :: Parsed(n.children[j], x)
  }

  predicate PlainStrings(n: Node) {
    if IsString(n) then PlainFrom(n.text, 1) else forall j | 0 <= j < |n.children| :: PlainStrings(n.children[j])
  }

  /** Strings without quotes inside interpolations are counted. */
  lemma {:induction false} PlainCounted(n: Node, x: string)
    requires Parsed(n, x) && PlainStrings(n)
    ensures Counted(n, x)
    decreases n
  {
    if IsString(n) {
      PlainScanned(n.text, x, 1);
    } else {
      forall j | 0 <= j < |n.children| ensures Counted(n.children[j], x) { PlainCounted(n.children[j], x); }
    }
  }

  /** The main theorem for parsed functions without quotes and backslashes inside interpolations. */
  lemma InlinePlain(m: Machine, fn: Node, path: seq<nat>, i: nat, args: seq<Value>, fuel: nat)
    requires SingleUseFixable(fn, path, i) && PlainStrings(fn)
    requires Parsed(fn, At(fn, path).children[i].children[0].text)
    ensures IdentNodes(Inline(fn, path, i), Program, 0, At(fn, path).children[i].children[0].text) == 0
    ensures RunFn(m, fn, args, fuel) != Failed ==>
              RunFn(m, Inline(fn, path, i), args, fuel) == RunFn(m, fn, args, fuel)
  {
    PlainCounted(fn, At(fn, path).children[i].children[0].text);
    InlineCounted(m, fn, path, i, args, fuel);
  }

  // ----- a quoted bracket -----

  /** The token `"\(g(")")+x)"`. */
  function Nested(): string { "\"\\(g(\")\")+x)\"" }

  /** The scan ends the interpolation at the quoted bracket, the parser at the last one. */
  lemma NestedScan()
    ensures InterpIdentCount(Nested(), "x") == 0
  {
    var s := Nested();
    assert InterpSegment(s, "x", 8, 1) == (0, 8);
    assert InterpSegment(s, "x", 6, 2) == (0, 8);
    assert InterpSegment(s, "x", 4, 1) == (0, 8);
    assert WordEnd(s, 4) == 4 && s[3..4] == "g";
    assert InterpSegment(s, "x", 3, 1) == (0, 8);
    assert InterpCountFrom(s, "x", 11) == 0;
    assert InterpCountFrom(s, "x", 9) == 0;
    assert InterpCountFrom(s, "x", 1) == 0;
  }

  lemma NestedAttach()
    ensures AttachWords(Nested(), "x", 1) == 1
  {
    var s := Nested();
    NestedEnd();
    hide AttachEnd;
    assert WordEnd(s, 11) == 11 && s[10..11] == "x";
    assert SegWords(s, "x", 10, 11) == 1;
    assert SegWords(s, "x", 8, 11) == 1;
    assert SegWords(s, "x", 6, 11) == 1;
    assert SegWords(s, "x", 4, 11) == 1;
    assert WordEnd(s, 4) == 4 && s[3..4] == "g";
    assert SegWords(s, "x", 3, 11) == 1;
    assert AttachWords(s, "x", 12) == 0;
  }

  lemma NestedEnd()
    ensures AttachEnd(Nested(), 3, 1, false) == Some(11)
  {
    var s := Nested();
    assert AttachEnd(s, 9, 1, false) == Some(11);
    assert AttachEnd(s, 7, 2, true) == Some(11);
    assert AttachEnd(s, 5, 2, false) == Some(11);
  }

  function Leaf(kind: Kind, text: string): Node { Node(kind, Tokens.Eof, text, []) }

  /** `1` */
  function Lit(): Node { Leaf(IntLit, "1") }

  /** `Nested()` as the parser builds it, with `sub` where its `x` stands. */
  function NestedString(sub: Node): Node {
    Node(StrLit, Tokens.Eof, Nested(), [Node(BinaryExpr, Tokens.Plus, "", [
      Node(CallExpr, Tokens.Eof, "", [Name("g"), Leaf(StrLit, "\")\"")]), sub])])
  }

  /** `<a+b` */
  function Ret(a: Node, b: Node): Node {
    Node(ReturnStmt, Tokens.Eof, "", [Node(BinaryExpr, Tokens.Plus, "", [a, b])])
  }

  /** `f(){let x=1; next}` */
  function LetFn(next: Node): Node {
    Node(FuncDecl, Tokens.Eof, "", [Node(StmtList, Tokens.Eof, "", [
      Node(BindStmt, Tokens.Eof, "", [Name("x"), Lit()]), next])])
  }

  /** An integer literal mentions no name. */
  lemma {:induction false} NoWrites(stmt: Node)
    ensures !StmtWritesIdentOf(stmt, Lit())
    decreases stmt
  {
    forall j | 0 <= j < |stmt.children| ensures !StmtWritesIdentOf(stmt.children[j], Lit()) {
      NoWrites(stmt.children[j]);
    }
  }

  lemma {:induction false} CensusKidsCons(n: Node, i: nat, x: string, ex: Option<seq<nat>>)
    requires i < |n.children|
    ensures CountKids(n, i, x, ex)
            == CountRefs(n.children[i], n.kind, i, x, Below(ex, i)).Plus(CountKids(n, i + 1, x, ex))
    ensures CountKids(n, |n.children|, x, ex) == NoRefs()
  {
    hide CountRefs, Below;
  }

  /** The census of `f(){let x=1; next}` without its `let`. */
  lemma {:induction false} LetCensus(next: Node)
    requires CountRefs(next, StmtList, 1, "x", None) == OneRef()
    ensures CountRefs(LetFn(next), Program, 0, "x", Some([0] + [0])) == OneRef()
  {
    var fn := LetFn(next);
    var list := fn.children[0];
    assert ([0] + [0])[1..] == [0] && [0][1..] == [];
    hide CountRefs, CountKids, NoRefs, OneRef, RefCount.Plus;
    PlusNone(OneRef());
    ExcludedCensus(list.children[0]);
    CensusOpens(list, FuncDecl, 0, "x", Some([0]));
    CensusOpens(fn, Program, 0, "x", Some([0] + [0]));
    CensusKidsCons(list, 1, "x", Some([0]));
    CensusKidsCons(list, 0, "x", Some([0]));
    CensusKidsCons(fn, 0, "x", Some([0] + [0]));
  }

  lemma {:induction false} ExcludedCensus(n: Node)
    ensures CountRefs(n, StmtList, 0, "x", Some([])) == NoRefs()
  {}

  /** The guards of the fix on `f(){let x=1; next}`, and what the fix makes of it. */
  lemma {:induction false} LetFixable(next: Node, path: seq<nat>)
    requires CountRefs(next, StmtList, 1, "x", None) == OneRef()
    requires FindRef(next, StmtList, 1, "x", false) == Some(Use(path, false))
    ensures SingleUseFixable(LetFn(next), [0], 0) && ValidPath(next, path)
    ensures var fn' := Inline(LetFn(next), [0], 0);
            && fn'.kind == FuncDecl && |fn'.children| == 1 && fn'.children[0].kind == StmtList
            && fn'.children[0].children == [Replace(next, path, Lit())]
  {
    var fn := LetFn(next);
    var list := fn.children[0];
    assert [0][1..] == [];
    assert ValidPath(list, []) && At(list, []) == list;
    assert ValidPath(fn, [0]) && At(fn, [0]) == list;
    assert !IdentUsedIn(Lit(), "x");
    assert Replace(list, [], InlineInList(list, 0)) == InlineInList(list, 0);
    hide StmtWritesIdentOf, IdentUsedIn, FindRef, CountRefs;
    FindRefValid(next, StmtList, 1, "x", false);
    NoWrites(next);
    LetCensus(next);
    assert SingleUseFixable(fn, [0], 0);
    assert InlineInList(list, 0).children == [Replace(next, path, Lit())];
  }

  lemma {:induction false} CountTwo(n: Node, pk: Kind, idx: nat, x: string)
    requires n.kind != Ident && n.kind != StrLit && |n.children| == 2
    ensures CountRefs(n, pk, idx, x, None) ==
            CountRefs(n.children[0], n.kind, 0, x, None).Plus(CountRefs(n.children[1], n.kind, 1, x, None))
  {
    CensusOpens(n, pk, idx, x, None);
    hide CountRefs;
    assert CountKids(n, 2, x, None) == NoRefs();
    assert CountKids(n, 1, x, None) == CountRefs(n.children[1], n.kind, 1, x, None);
  }

  lemma {:induction false} CountOne(n: Node, pk: Kind, idx: nat, x: string)
    requires n.kind != Ident && n.kind != StrLit && |n.children| == 1
    ensures CountRefs(n, pk, idx, x, None) == CountRefs(n.children[0], n.kind, 0, x, None)
  {
    CensusOpens(n, pk, idx, x, None);
    hide CountRefs;
    assert CountKids(n, 1, x, None) == NoRefs();
  }

  /** The census of `<a+b`. */
  lemma {:induction false} RetCensus(a: Node, b: Node)
    ensures CountRefs(Ret(a, b), StmtList, 1, "x", None) ==
            CountRefs(a, BinaryExpr, 0, "x", None).Plus(CountRefs(b, BinaryExpr, 1, "x", None))
  {
    hide CountRefs;
    CountTwo(Ret(a, b).children[0], ReturnStmt, 0, "x");
    CountOne(Ret(a, b), StmtList, 1, "x");
  }

  lemma {:induction false} StringCensus(str: Node)
    requires str.kind == StrLit && str.text == Nested()
    ensures CountRefs(str, BinaryExpr, 0, "x", None) == NoRefs() == CountRefs(str, BinaryExpr, 1, "x", None)
  {
    NestedScan();
    hide InterpIdentCount;
  }

  lemma {:induction false} NameCensus(idx: nat)
    ensures CountRefs(Name("x"), BinaryExpr, idx, "x", None) == OneRef()
    ensures FindRef(Name("x"), BinaryExpr, idx, "x", false) == Some(Use([], false))
  {}

  // ----- the search ends inside the string -----

  lemma {:induction false} FoundFirst(n: Node, pk: Kind, idx: nat, x: string, path: seq<nat>)
    requires n.kind != Ident && !UnsafeKind(n.kind) && |n.children| > 0
    requires FindRef(n.children[0], n.kind, 0, x, false) == Some(Use(path, false))
    ensures FindRef(n, pk, idx, x, false) == Some(Use([0] + path, false))
  {
    FindRefOpens(n, pk, idx, x, false);
  }

  lemma {:induction false} FoundSecond(n: Node, pk: Kind, idx: nat, x: string, path: seq<nat>)
    requires n.kind != Ident && !UnsafeKind(n.kind) && |n.children| > 1
    requires FindRef(n.children[0], n.kind, 0, x, false) == None
    requires FindRef(n.children[1], n.kind, 1, x, false) == Some(Use(path, false))
    ensures FindRef(n, pk, idx, x, false) == Some(Use([1] + path, false))
  {
    FindRefOpens(n, pk, idx, x, false);
    hide FindRef;
    assert FindRefKids(n, 1, x, false) == Some(Use([1] + path, false));
  }

  lemma {:induction false} NotFoundInTwo(n: Node, pk: Kind, idx: nat, x: string)
    requires n.kind != Ident && !UnsafeKind(n.kind) && |n.children| == 2
    requires FindRef(n.children[0], n.kind, 0, x, false) == None && FindRef(n.children[1], n.kind, 1, x, false) == None
    ensures FindRef(n, pk, idx, x, false) == None
  {
    FindRefOpens(n, pk, idx, x, false);
    hide FindRef;
    assert FindRefKids(n, 2, x, false) == None;
    assert FindRefKids(n, 1, x, false) == None;
  }

  /** The search passes over `g(")")` and ends at the operand after it. */
  lemma {:induction false} NestedInner(inner: Node)
    requires inner == NestedString(Name("x")).children[0]
    ensures FindRef(inner, StrLit, 0, "x", false) == Some(Use([1], false))
  {
    var call := inner.children[0];
    assert FindRef(call.children[0], CallExpr, 0, "x", false) == None by { assert "g" != "x"; }
    assert FindRef(call.children[1], CallExpr, 1, "x", false) == None by {
      assert FindRefKids(call.children[1], 0, "x", false) == None;
    }
    NameCensus(1);
    hide FindRef;
    NotFoundInTwo(call, BinaryExpr, 0, "x");
    FoundSecond(inner, StrLit, 0, "x", []);
    assert [1] + [] == [1];
  }

  /** `<"\(g(")")+x)"+x`: the census counts one reference, the operand after the string; the search ends
      inside the string. */
  lemma {:induction false} NestedFound()
    ensures var next := Ret(NestedString(Name("x")), Name("x"));
            && CountRefs(next, StmtList, 1, "x", None) == OneRef()
            && FindRef(next, StmtList, 1, "x", false) == Some(Use([0, 0, 0, 1], false))
  {
    hide FindRef, CountRefs, Nested, FindRefKids, CountKids, NoRefs, OneRef, RefCount.Plus;
    PlusNone(OneRef());
    var str := NestedString(Name("x"));
    var next := Ret(str, Name("x"));
    StringCensus(str);
    NameCensus(1);
    NestedInner(str.children[0]);
    RetCensus(str, Name("x"));
    FoundFirst(str, BinaryExpr, 0, "x", [1]);
    FoundFirst(next.children[0], ReturnStmt, 0, "x", [0] + [1]);
    FoundFirst(next, StmtList, 1, "x", [0] + ([0] + [1]));
    assert [0] + ([0] + ([0] + [1])) == [0, 0, 0, 1];
  }

  /** `<x+"\(g(")")+x)"`: the census counts one reference, the operand before the string, where the search
      ends; the name inside the string is neither counted nor replaced. */
  lemma {:induction false} SecondFound()
    ensures var next := Ret(Name("x"), NestedString(Name("x")));
            && CountRefs(next, StmtList, 1, "x", None) == OneRef()
            && FindRef(next, StmtList, 1, "x", false) == Some(Use([0, 0], false))
  {
    var str := NestedString(Name("x"));
    hide FindRef, CountRefs, Nested, FindRefKids, CountKids, NoRefs, OneRef, RefCount.Plus;
    PlusNone(OneRef());
    var next := Ret(Name("x"), str);
    StringCensus(str);
    NameCensus(0);
    RetCensus(Name("x"), str);
    FoundFirst(next.children[0], ReturnStmt, 0, "x", []);
    FoundFirst(next, StmtList, 1, "x", [0] + []);
    assert [0] + ([0] + []) == [0, 0];
  }

  lemma {:induction false} ReplaceStep(n: Node, j: nat, path: seq<nat>, sub: Node, kid: Node)
    requires n.kind != Ident && j < |n.children| && ValidPath(n.children[j], path)
    requires Replace(n.children[j], path, sub) == kid
    ensures ValidPath(n, [j] + path) && Replace(n, [j] + path, sub) == n.(children := n.children[j := kid])
  {
    assert ([j] + path)[1..] == path;
  }

  lemma {:induction false} NestedReplaced()
    ensures ValidPath(Ret(NestedString(Name("x")), Name("x")), [0, 0, 0, 1])
    ensures Replace(Ret(NestedString(Name("x")), Name("x")), [0, 0, 0, 1], Lit()) == Ret(NestedString(Lit()), Name("x"))
  {
    var str := NestedString(Name("x"));
    var next := Ret(str, Name("x"));
    hide Nested, Replace, ValidPath;
    ReplaceHere(Name("x"));
    ReplaceStep(str.children[0], 1, [], Lit(), Lit());
    ReplaceStep(str, 0, [1] + [], Lit(), NestedString(Lit()).children[0]);
    ReplaceStep(next.children[0], 0, [0] + ([1] + []), Lit(), NestedString(Lit()));
    ReplaceStep(next, 0, [0] + ([0] + ([1] + [])), Lit(), Ret(NestedString(Lit()), Name("x")).children[0]);
    assert [0] + ([0] + ([0] + ([1] + []))) == [0, 0, 0, 1];
  }

  lemma {:induction false} SecondReplaced()
    ensures ValidPath(Ret(Name("x"), NestedString(Name("x"))), [0, 0])
    ensures Replace(Ret(Name("x"), NestedString(Name("x"))), [0, 0], Lit()) == Ret(Lit(), NestedString(Name("x")))
  {
    var str := NestedString(Name("x"));
    var next := Ret(Name("x"), str);
    hide Nested, NestedString, Replace, ValidPath;
    ReplaceHere(Name("x"));
    ReplaceStep(next.children[0], 0, [], Lit(), Lit());
    ReplaceStep(next, 0, [0] + [], Lit(), Ret(Lit(), str).children[0]);
    assert [0] + ([0] + []) == [0, 0];
  }

  lemma ReplaceHere(n: Node)
    ensures ValidPath(n, []) && Replace(n, [], Lit()) == Lit()
  {}

  // ----- a machine that knows every name but one -----

  function NoX(): Machine {
    Machine((k, t) => Some(Unit), n => if n == "x" then None else Some(Unit),
            (k, op, l, vs) => Some(Unit), v => Some(true),
            (vs, tr) => Some(Unit), v => CarryOn(v), (p, v) => Some(Unit))
  }

  /** An expression without branches. */
  predicate Straight(n: Node) {
    && ShapeOk(n) && !IsControl(n) && !IsBlock(n.kind) && (Calm(n.kind) || n.kind == CallExpr)
    && forall j | EvalLo(n) <= j < EvalHi(n) :: Straight(n.children[j])
  }

  /** The value of `x` is read. */
  predicate Reads(n: Node) {
    ShapeOk(n) && ((n.kind == Ident && n.text == "x") || exists j | EvalLo(n) <= j < EvalHi(n) :: Reads(n.children[j]))
  }

  predicate KidsRead(n: Node, i: nat, hi: nat)
    requires i <= hi <= |n.children|
  {
    exists j | i <= j < hi :: Reads(n.children[j])
  }

  predicate Bound(env: Env) { Lookup(env, "x").Some? }

  /** The machine faults exactly on an unbound `x`. */
  lemma {:induction false} NoXRuns(n: Node, env: Env, tr: Trace, fuel: nat)
    requires Straight(n)
    ensures var o := Exec(NoX(), n, env, tr, fuel);
            if Reads(n) && !Bound(env) then o == Fault else o.Done? && o.env == env
    decreases n, 1, 0
  {
    NoXKids(n, EvalLo(n), EvalHi(n), env, tr, fuel);
    assert Reads(n) <==> (n.kind == Ident && n.text == "x") || KidsRead(n, EvalLo(n), EvalHi(n));
    hide Straight, Reads, KidsRead, ExecKids;
    NoXFinish(n, env, tr, fuel);
  }

  lemma NoXFinish(n: Node, env: Env, tr: Trace, fuel: nat)
    requires ShapeOk(n) && !IsControl(n) && !IsBlock(n.kind) && (Calm(n.kind) || n.kind == CallExpr)
    requires var k := ExecKids(NoX(), n, EvalLo(n), EvalHi(n), env, tr, fuel);
             k == Early(Fault) || (k.Vals? && k.env == env)
    ensures var o, k := Exec(NoX(), n, env, tr, fuel), ExecKids(NoX(), n, EvalLo(n), EvalHi(n), env, tr, fuel);
            if k.Early? || (n.kind == Ident && n.text == "x" && !Bound(env)) then o == Fault
              else o.Done? && o.env == env
  {
    hide Exec, ExecKids, HasInterpFrom, Lookup;
    PlainExec(NoX(), n, env, tr, fuel);
    if n.kind == Ident { IdentKids(n, env, tr, fuel); }
  }

  lemma IdentKids(n: Node, env: Env, tr: Trace, fuel: nat)
    requires n.kind == Ident && ShapeOk(n)
    ensures ExecKids(NoX(), n, EvalLo(n), EvalHi(n), env, tr, fuel) == Vals([], env, tr)
  {}

  lemma {:induction false} NoXKids(n: Node, i: nat, hi: nat, env: Env, tr: Trace, fuel: nat)
    requires i <= hi <= |n.children| && forall j | i <= j < hi :: Straight(n.children[j])
    ensures var k := ExecKids(NoX(), n, i, hi, env, tr, fuel);
            if KidsRead(n, i, hi) && !Bound(env) then k == Early(Fault) else k.Vals? && k.env == env
    decreases n, 0, hi - i
  {
    if i < hi {
      NoXRuns(n.children[i], env, tr, fuel);
      assert KidsRead(n, i, hi) <==> Reads(n.children[i]) || KidsRead(n, i + 1, hi);
      hide Exec, Straight, Reads, KidsRead, Bound;
      var o := Exec(NoX(), n.children[i], env, tr, fuel);
      if o.Done? { NoXKids(n, i + 1, hi, env, o.tr, fuel); }
    }
  }

  lemma RetRuns(a: Node, b: Node, env: Env)
    requires Straight(a) && Straight(b)
    ensures var o := Exec(NoX(), Ret(a, b), env, [], 0);
            if (Reads(a) || Reads(b)) && !Bound(env) then o == Fault else o.Returned?
  {
    var next := Ret(a, b);
    var sum := next.children[0];
    assert sum.children[0] == a && sum.children[1] == b;
    BinaryStraight(sum);
    NoXRuns(sum, env, [], 0);
    hide Exec, Straight, Reads, Bound;
    var o := Exec(NoX(), sum, env, [], 0);
    assert o.Done? ==> ExecKids(NoX(), next, 1, 1, o.env, o.tr, 0) == Vals([], o.env, o.tr);
    PlainExec(NoX(), next, env, [], 0);
  }

  lemma LetFnRuns(a: Node, b: Node)
    requires Straight(a) && Straight(b)
    ensures RunFn(NoX(), LetFn(Ret(a, b)), [], 0).Result?
  {
    var m, fn := NoX(), LetFn(Ret(a, b));
    var body := fn.children[0];
    var decl, env := body.children[0], [Slot("x", Unit)];
    PureExec(m, decl.children[1], [], [], 0);
    assert Lookup(env, "x") == Some(Unit);
    RetRuns(a, b, env);
    hide Exec, Lookup, Straight, Reads;
    LetRuns(m, decl, [], [], 0);
    assert [] + env == env;
    var o := Exec(m, body.children[1], env, [], 0);
    assert ExecKids(m, body, 1, 2, env, [], 0) == Early(o);
    assert ExecKids(m, body, 0, 2, [], [], 0) == Early(o);
    hide ExecKids;
    BlockExec(m, body, [], [], 0);
    assert ParamSlots(fn, 1, []) == Some([]);
  }

  lemma BareFnFails(fn: Node, a: Node, b: Node)
    requires fn.kind == FuncDecl && |fn.children| == 1 && fn.children[0].kind == StmtList
    requires fn.children[0].children == [Ret(a, b)] && Straight(a) && Straight(b) && (Reads(a) || Reads(b))
    ensures RunFn(NoX(), fn, [], 0) == Failed
  {
    var m, body := NoX(), fn.children[0];
    assert !Bound([]);
    RetRuns(a, b, []);
    hide Exec, Straight, Reads;
    assert ParamSlots(fn, 0, []).None? || ParamSlots(fn, 0, []) == Some([]);
    assert ExecKids(m, body, 0, 1, [], [], 0) == Early(Fault);
    hide ExecKids;
    BlockExec(m, body, [], [], 0);
  }

  lemma {:induction false} NestedStraight(sub: Node)
    requires Straight(sub)
    ensures Straight(NestedString(sub)) && (Reads(sub) ==> Reads(NestedString(sub)))
  {
    var str := NestedString(sub);
    var inner := str.children[0];
    var call := inner.children[0];
    NestedInterp(str);
    assert !HasInterp(call.children[1]);
    assert Straight(call.children[0]) && Straight(call.children[1]);
    hide HasInterp, Nested;
    assert Straight(call);
    assert inner.children[1] == sub;
    BinaryStraight(inner);
    hide Straight, Reads;
    OneStraight(str);
  }

  lemma {:induction false} BinaryStraight(n: Node)
    requires n.kind == BinaryExpr && n.op == Tokens.Plus && |n.children| == 2
    requires Straight(n.children[0]) && Straight(n.children[1])
    ensures Straight(n) && (Reads(n) <==> Reads(n.children[0]) || Reads(n.children[1]))
  {}

  lemma {:induction false} OneStraight(n: Node)
    requires n.kind == StrLit && HasInterp(n) && |n.children| == 1 && Straight(n.children[0])
    ensures Straight(n) && (Reads(n) <==> Reads(n.children[0]))
  {
    hide HasInterpFrom;
  }

  lemma {:induction false} NestedInterp(str: Node)
    requires str.kind == StrLit && str.text == Nested()
    ensures HasInterp(str)
  {
    assert HasInterpFrom(str.text, 1);
  }

  lemma {:induction false} NamesStraight()
    ensures Straight(Name("x")) && Reads(Name("x")) && Straight(Lit())
  {}

  /** `f(){let x=1; <"\(g(")")+x)"+x}`: the fix goes into the string and the counted use is left unbound. */
  lemma NestedBreaks()
    ensures var fn := LetFn(Ret(NestedString(Name("x")), Name("x")));
            && SingleUseFixable(fn, [0], 0)
            && RunFn(NoX(), fn, [], 0).Result? && RunFn(NoX(), Inline(fn, [0], 0), [], 0) == Failed
  {
    hide *;
    NamesStraight();
    NestedStraight(Name("x"));
    NestedStraight(Lit());
    NestedFound();
    NestedReplaced();
    LetFixable(Ret(NestedString(Name("x")), Name("x")), [0, 0, 0, 1]);
    LetFnRuns(NestedString(Name("x")), Name("x"));
    BareFnFails(Inline(LetFn(Ret(NestedString(Name("x")), Name("x"))), [0], 0), NestedString(Lit()), Name("x"));
  }

  /** `f(){let x=1; <x+"\(g(")")+x)"}`: the fix replaces the counted use and the one in the string is left
      unbound. */
  lemma SecondBreaks()
    ensures var fn := LetFn(Ret(Name("x"), NestedString(Name("x"))));
            && SingleUseFixable(fn, [0], 0)
            && RunFn(NoX(), fn, [], 0).Result? && RunFn(NoX(), Inline(fn, [0], 0), [], 0) == Failed
  {
    hide *;
    NamesStraight();
    NestedStraight(Name("x"));
    SecondFound();
    SecondReplaced();
    LetFixable(Ret(Name("x"), NestedString(Name("x"))), [0, 0]);
    LetFnRuns(Name("x"), NestedString(Name("x")));
    BareFnFails(Inline(LetFn(Ret(Name("x"), NestedString(Name("x")))), [0], 0), Lit(), NestedString(Name("x")));
  }
}
