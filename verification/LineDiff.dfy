/** The dry-run diff: `split_lines` and `lint_print_diff` of `src/main.c`. */
module LineDiff {
  import opened Wrappers

  const SIZE_CAP: nat := 4000000

  // ----- lines -----

  /** The lines of a text from `i` on, the current one having started at `start`. */
  function LinesFrom(b: string, start: nat, i: nat): seq<string>
    requires start <= i <= |b|
    decreases |b| - i
  {
    if i == |b| then if start < |b| then [b[start..]] else []
    else if b[i] == '\n' then [b[start..i]] + LinesFrom(b, i + 1, i + 1)
    else LinesFrom(b, start, i + 1)
  }

  function Lines(b: string): seq<string> { LinesFrom(b, 0, 0) }

  function Unlines(ls: seq<string>): string {
    if ls == [] then "" else ls[0] + "\n" + Unlines(ls[1..])
  }

  /** The text with a final line break. */
  function Ended(text: string): string {
    if text == "" || text[|text| - 1] == '\n' then text else text + "\n"
  }

  lemma UnlinesCons(l: string, ls: seq<string>)
    ensures Unlines([l] + ls) == l + "\n" + Unlines(ls)
  {
    assert ([l] + ls)[1..] == ls;
  }

  lemma EndedCons(l: string, text: string)
    ensures Ended(l + "\n" + text) == l + "\n" + Ended(text)
  {
    var x := l + "\n" + text;
    if text == "" {
      assert x == l + "\n";
    } else {
      assert x[|x| - 1] == text[|text| - 1];
      assert x + "\n" == l + "\n" + (text + "\n");
    }
  }

  lemma SplitAt(b: string, start: nat, i: nat)
    requires start <= i < |b| && b[i] == '\n'
    ensures b[start..] == b[start..i] + "\n" + b[i + 1..]
  {
  }

  lemma LastLine(l: string)
    requires l != "" && l[|l| - 1] != '\n'
    ensures Unlines([l]) == Ended(l)
  {
    assert Unlines([l]) == l + "\n" + Unlines([]);
  }

  lemma {:induction false} LinesComplete(b: string, start: nat, i: nat)
    requires start <= i <= |b| && forall k | start <= k < i :: b[k] != '\n'
    ensures Unlines(LinesFrom(b, start, i)) == Ended(b[start..])
    decreases |b| - i
  {
    if i == |b| {
      if start < |b| {
        hide Unlines, Ended;
        LastLine(b[start..]);
      }
    } else if b[i] == '\n' {
      var l, text := b[start..i], b[i + 1..];
      assert LinesFrom(b, start, i) == [l] + LinesFrom(b, i + 1, i + 1);
      hide Unlines, Ended, LinesFrom;
      LinesComplete(b, i + 1, i + 1);
      UnlinesCons(l, LinesFrom(b, i + 1, i + 1));
      SplitAt(b, start, i);
      EndedCons(l, text);
    } else {
      hide Unlines, Ended;
      LinesComplete(b, start, i + 1);
    }
  }

  lemma {:induction false} LinesPlain(b: string, start: nat, i: nat)
    requires start <= i <= |b| && forall k | start <= k < i :: b[k] != '\n'
    ensures forall k | 0 <= k < |LinesFrom(b, start, i)| :: '\n' !in LinesFrom(b, start, i)[k]
    decreases |b| - i
  {
    if i < |b| {
      if b[i] == '\n' { LinesPlain(b, i + 1, i + 1); } else { LinesPlain(b, start, i + 1); }
    }
  }

  /** No byte is lost: the lines put back together are the text, with a final line break added when it
      has none; and no line contains a line break. */
  lemma LinesRebuild(b: string)
    ensures Unlines(Lines(b)) == Ended(b)
    ensures forall k | 0 <= k < |Lines(b)| :: '\n' !in Lines(b)[k]
  {
    LinesComplete(b, 0, 0);
    LinesPlain(b, 0, 0);
    hide LinesFrom, Unlines, Ended;
    assert b[0..] == b;
  }

  /** The number of lines, as the first loop counts it. */
  function Breaks(b: string, i: nat): nat
    requires i <= |b|
  {
    if i == 0 then 0 else Breaks(b, i - 1) + if b[i - 1] == '\n' then 1 else 0
  }

  lemma {:induction false} LinesCount(b: string, start: nat, i: nat)
    requires start <= i <= |b| && forall k | start <= k < i :: b[k] != '\n'
    ensures |LinesFrom(b, start, i)|
            == Breaks(b, |b|) - Breaks(b, i) + if |b| > start && b[|b| - 1] != '\n' then 1 else 0
    decreases |b| - i
  {
    if i < |b| {
      if b[i] == '\n' { LinesCount(b, i + 1, i + 1); } else { LinesCount(b, start, i + 1); }
    }
  }

  method CountLines(b: string) returns (n: nat)
    ensures n == |Lines(b)|
  {
    n := 0;
    var i := 0;
    while i < |b|
      invariant 0 <= i <= |b| && n == Breaks(b, i)
    {
      if b[i] == '\n' { n := n + 1; }
      i := i + 1;
    }
    if |b| > 0 && b[|b| - 1] != '\n' { n := n + 1; }
    LinesCount(b, 0, 0);
  }

  /** The first `k` starts and lengths are those of the first `k` lines. */
  ghost predicate Located(b: string, ls: seq<string>, starts: array<nat>, lens: array<nat>, k: nat)
    reads starts, lens
  {
    && k <= |ls| && k <= starts.Length && k <= lens.Length
    && forall i | 0 <= i < k :: starts[i] + lens[i] <= |b| && ls[i] == b[starts[i]..starts[i] + lens[i]]
  }

  method SetLine(b: string, ghost ls: seq<string>, starts: array<nat>, lens: array<nat>, k: nat, start: nat, end: nat)
    requires Located(b, ls, starts, lens, k) && k < |ls| && k < starts.Length && k < lens.Length && starts != lens
    requires start <= end <= |b| && ls[k] == b[start..end]
    modifies starts, lens
    ensures Located(b, ls, starts, lens, k + 1)
  {
    starts[k] := start;
    lens[k] := end - start;
  }

  /** After `k` lines the scan is at `i`, in the line that starts at `s`. */
  ghost predicate Ahead(b: string, k: nat, s: nat, i: nat) {
    s <= i <= |b| && k <= |Lines(b)| && Lines(b)[k..] == LinesFrom(b, s, i)
  }

  lemma AheadBreak(b: string, k: nat, s: nat, i: nat)
    requires Ahead(b, k, s, i) && i < |b| && b[i] == '\n'
    ensures k < |Lines(b)| && Lines(b)[k] == b[s..i] && Ahead(b, k + 1, i + 1, i + 1)
  {
    var ls := Lines(b)[k..];
    assert ls == [b[s..i]] + LinesFrom(b, i + 1, i + 1);
    hide LinesFrom, Lines;
    assert Lines(b)[k] == ls[0] && Lines(b)[k + 1..] == ls[1..];
  }

  lemma AheadEnd(b: string, k: nat, s: nat)
    requires Ahead(b, k, s, |b|)
    ensures if s < |b| then k + 1 == |Lines(b)| && Lines(b)[k] == b[s..] else k == |Lines(b)|
  {
    var ls := Lines(b)[k..];
    assert ls == LinesFrom(b, s, |b|);
    if s < |b| { assert Lines(b)[k] == ls[0]; }
  }

  /** `split_lines`: the start and the length of every line */
  method SplitLines(b: string) returns (starts: array<nat>, lens: array<nat>, k: nat)
    ensures k == |Lines(b)| && Located(b, Lines(b), starts, lens, k) && fresh(starts) && fresh(lens)
  {
    var n := CountLines(b);
    starts := new nat[if n > 0 then n else 1];
    lens := new nat[if n > 0 then n else 1];
    k := 0;
    var s, i := 0, 0;
    assert Ahead(b, 0, 0, 0);
    assert Located(b, Lines(b), starts, lens, 0);
    hide LinesFrom, Lines, Ahead;
    while i < |b|
      invariant 0 <= i <= |b| && 0 <= s && k <= n && Ahead(b, k, s, i)
      invariant Located(b, Lines(b), starts, lens, k)
    {
      if b[i] == '\n' {
        AheadBreak(b, k, s, i);
        AheadOrder(b, k, s, i);
        SetLine(b, Lines(b), starts, lens, k, s, i);
        k := k + 1;
        s := i + 1;
      } else {
        AheadOn(b, k, s, i);
      }
      i := i + 1;
    }
    AheadEnd(b, k, s);
    if s < |b| {
      SetLine(b, Lines(b), starts, lens, k, s, |b|);
      k := k + 1;
    }
  }

  lemma AheadOn(b: string, k: nat, s: nat, i: nat)
    requires Ahead(b, k, s, i) && i < |b| && b[i] != '\n'
    ensures Ahead(b, k, s, i + 1)
  {
  }

  lemma AheadOrder(b: string, k: nat, s: nat, i: nat)
    requires Ahead(b, k, s, i)
    ensures s <= i <= |b|
  {
  }

  // ----- edit scripts -----

  /** One output of the diff; kept lines are passed over silently. */
  datatype Edit = Keep(line: string) | Delete(line: string) | Insert(line: string) | Hunk(oldLine: nat, newLine: nat)

  /** The lines a script expects. */
  function Old(x: seq<Edit>): seq<string> {
    if x == [] then []
    else Old(x[..|x| - 1]) + (match x[|x| - 1] case Keep(l) => [l] case Delete(l) => [l] case _ => [])
  }

  /** The lines it leaves. */
  function New(x: seq<Edit>): seq<string> {
    if x == [] then []
    else New(x[..|x| - 1]) + (match x[|x| - 1] case Keep(l) => [l] case Insert(l) => [l] case _ => [])
  }

  function Kept(x: seq<Edit>): nat {
    if x == [] then 0 else Kept(x[..|x| - 1]) + if x[|x| - 1].Keep? then 1 else 0
  }

  function Changes(x: seq<Edit>): nat {
    if x == [] then 0 else Changes(x[..|x| - 1]) + if x[|x| - 1].Delete? || x[|x| - 1].Insert? then 1 else 0
  }

  predicate IsChange(e: Edit) { e.Delete? || e.Insert? }

  /** A header stands before a run of changes and nowhere else, and names the next old and new line. */
  predicate HeadedAt(x: seq<Edit>, k: nat)
    requires k < |x|
  {
    && (IsChange(x[k]) ==> k > 0 && (IsChange(x[k - 1]) || x[k - 1].Hunk?))
    && (x[k].Hunk? ==> && k + 1 < |x| && IsChange(x[k + 1]) && (k > 0 ==> x[k - 1].Keep?)
                       && x[k] == Hunk(|Old(x[..k])| + 1, |New(x[..k])| + 1))
  }

  predicate Headed(x: seq<Edit>) {
    forall k | 0 <= k < |x| :: HeadedAt(x, k)
  }

  // ----- the longest common subsequence -----

  /** The table of the dynamic program. */
  function Lcs(a: seq<string>, b: seq<string>, i: nat, j: nat): nat
    requires i <= |a| && j <= |b|
    decreases |a| - i + |b| - j
  {
    if i == |a| || j == |b| then 0
    else if a[i] == b[j] then Lcs(a, b, i + 1, j + 1) + 1
    else if Lcs(a, b, i + 1, j) > Lcs(a, b, i, j + 1) then Lcs(a, b, i + 1, j)
    else Lcs(a, b, i, j + 1)
  }

  /** A common subsequence: pairs of equal lines, in order in both texts, from (i, j) on. */
  predicate Common(a: seq<string>, b: seq<string>, ps: seq<(nat, nat)>, i: nat, j: nat) {
    && (forall k | 0 <= k < |ps| :: i <= ps[k].0 < |a| && j <= ps[k].1 < |b| && a[ps[k].0] == b[ps[k].1])
    && (forall k, l | 0 <= k < l < |ps| :: ps[k].0 < ps[l].0 && ps[k].1 < ps[l].1)
  }

  /** No common subsequence is longer than the table says. */
  lemma {:induction false} LcsMaximal(a: seq<string>, b: seq<string>, ps: seq<(nat, nat)>, i: nat, j: nat)
    requires i <= |a| && j <= |b| && Common(a, b, ps, i, j)
    ensures |ps| <= Lcs(a, b, i, j)
    decreases |a| - i + |b| - j
  {
    if ps == [] { return; }
    assert ps[0].0 < |a| && ps[0].1 < |b|;
    if a[i] == b[j] {
      var qs := ps[1..];
      assert forall k | 0 <= k < |qs| :: qs[k] == ps[k + 1] && ps[0].0 < ps[k + 1].0 && ps[0].1 < ps[k + 1].1;
      LcsMaximal(a, b, qs, i + 1, j + 1);
    } else if ps[0].0 > i {
      LcsMaximal(a, b, ps, i + 1, j);
    } else {
      LcsMaximal(a, b, ps, i, j + 1);
    }
  }

  /** The pairs of lines a script keeps. */
  function Pairs(x: seq<Edit>): seq<(nat, nat)> {
    if x == [] then []
    else Pairs(x[..|x| - 1]) + if x[|x| - 1].Keep? then [(|Old(x[..|x| - 1])|, |New(x[..|x| - 1])|)] else []
  }

  lemma CommonGrows(a: seq<string>, b: seq<string>, ps: seq<(nat, nat)>, a': seq<string>, b': seq<string>)
    requires Common(a, b, ps, 0, 0)
    ensures Common(a + a', b + b', ps, 0, 0)
  {
  }

  lemma CommonPush(a: seq<string>, b: seq<string>, ps: seq<(nat, nat)>, l: string)
    requires Common(a, b, ps, 0, 0)
    ensures Common(a + [l], b + [l], ps + [(|a|, |b|)], 0, 0)
  {
  }

  lemma {:induction false} PairsCommon(x: seq<Edit>)
    ensures Common(Old(x), New(x), Pairs(x), 0, 0) && |Pairs(x)| == Kept(x)
  {
    if x != [] {
      var y, e := x[..|x| - 1], x[|x| - 1];
      PairsCommon(y);
      hide Common;
      match e
      case Keep(l) => CommonPush(Old(y), New(y), Pairs(y), l);
      case Delete(l) => CommonGrows(Old(y), New(y), Pairs(y), [l], []);
      case Insert(l) => CommonGrows(Old(y), New(y), Pairs(y), [], [l]);
      case Hunk(_, _) => CommonGrows(Old(y), New(y), Pairs(y), [], []);
    } else {
      assert Common([], [], [], 0, 0);
    }
  }

  lemma {:induction false} LinesBalance(x: seq<Edit>)
    ensures |Old(x)| + |New(x)| == 2 * Kept(x) + Changes(x)
  {
    if x != [] { LinesBalance(x[..|x| - 1]); }
  }

  /** A script that keeps as many lines as the table says is a smallest one. */
  lemma MostKeptLeastChanged(x: seq<Edit>, y: seq<Edit>)
    requires Old(x) == Old(y) && New(x) == New(y) && Kept(x) == Lcs(Old(x), New(x), 0, 0)
    ensures Kept(y) <= Kept(x) && Changes(x) <= Changes(y)
  {
    LinesBalance(x);
    LinesBalance(y);
    PairsCommon(y);
    LcsMaximal(Old(y), New(y), Pairs(y), 0, 0);
  }

  // ----- the program -----

  /** The table holds its final values from row `i` on. */
  ghost predicate Filled(t: array2<nat>, a: seq<string>, b: seq<string>, i: nat)
    requires t.Length0 == |a| + 1 && t.Length1 == |b| + 1
    reads t
  {
    forall p, q | i <= p <= |a| && 0 <= q <= |b| :: t[p, q] == Lcs(a, b, p, q)
  }

  lemma LcsEdge(a: seq<string>, b: seq<string>, i: nat)
    requires i <= |a|
    ensures Lcs(a, b, i, |b|) == 0
  {}

  lemma LcsStep(a: seq<string>, b: seq<string>, i: nat, j: nat)
    requires i < |a| && j < |b|
    ensures Lcs(a, b, i, j) == if a[i] == b[j] then Lcs(a, b, i + 1, j + 1) + 1
                               else if Lcs(a, b, i + 1, j) > Lcs(a, b, i, j + 1) then Lcs(a, b, i + 1, j)
                               else Lcs(a, b, i, j + 1)
  {}

  method FillRow(t: array2<nat>, a: seq<string>, b: seq<string>, i: nat)
    requires t.Length0 == |a| + 1 && t.Length1 == |b| + 1 && i < |a| && Filled(t, a, b, i + 1) && t[i, |b|] == 0
    modifies t
    ensures Filled(t, a, b, i) && forall p | 0 <= p < i :: t[p, |b|] == old(t[p, |b|])
  {
    hide Lcs;
    LcsEdge(a, b, i);
    var j: nat := |b|;
    while j > 0
      invariant j <= |b|
      invariant forall p, q | i < p <= |a| && 0 <= q <= |b| :: t[p, q] == old(t[p, q])
      invariant forall q | j <= q <= |b| :: t[i, q] == Lcs(a, b, i, q)
      invariant forall p | 0 <= p < i :: t[p, |b|] == old(t[p, |b|])
    {
      j := j - 1;
      assert t[i + 1, j + 1] == Lcs(a, b, i + 1, j + 1) && t[i + 1, j] == Lcs(a, b, i + 1, j);
      LcsStep(a, b, i, j);
      t[i, j] := if a[i] == b[j] then t[i + 1, j + 1] + 1
                 else if t[i + 1, j] > t[i, j + 1] then t[i + 1, j] else t[i, j + 1];
    }
  }

  method FillTable(a: seq<string>, b: seq<string>) returns (t: array2<nat>)
    ensures fresh(t) && t.Length0 == |a| + 1 && t.Length1 == |b| + 1 && Filled(t, a, b, 0)
  {
    t := new nat[|a| + 1, |b| + 1]((_, _) => 0);
    var i: nat := |a|;
    while i > 0
      invariant i <= |a| && Filled(t, a, b, i)
      invariant forall p | 0 <= p < i :: t[p, |b|] == 0
    {
      i := i - 1;
      hide Lcs;
      FillRow(t, a, b, i);
    }
  }

  lemma Appended(x: seq<Edit>, e: Edit)
    ensures Old(x + [e]) == Old(x) + (match e case Keep(l) => [l] case Delete(l) => [l] case _ => [])
    ensures New(x + [e]) == New(x) + (match e case Keep(l) => [l] case Insert(l) => [l] case _ => [])
    ensures Kept(x + [e]) == Kept(x) + if e.Keep? then 1 else 0
  {
    assert (x + [e])[..|x|] == x;
  }

  /** Headers so far, the run of changes at the end being open or not. */
  predicate HeadedSoFar(x: seq<Edit>, open: bool) {
    && (open <==> x != [] && IsChange(x[|x| - 1]))
    && Headed(x)
  }

  lemma HeadedSame(x: seq<Edit>, y: seq<Edit>, k: nat)
    requires x <= y && k < |x| && HeadedAt(x, k)
    ensures HeadedAt(y, k)
  {
    hide Old, New;
    assert y[..k] == x[..k];
  }

  lemma HeadKeep(x: seq<Edit>, open: bool, l: string)
    requires HeadedSoFar(x, open)
    ensures HeadedSoFar(x + [Keep(l)], false)
  {
    var y := x + [Keep(l)];
    forall k | 0 <= k < |y| ensures HeadedAt(y, k) {
      if k < |x| { HeadedSame(x, y, k); }
    }
  }

  lemma HeadMore(x: seq<Edit>, e: Edit)
    requires HeadedSoFar(x, true) && IsChange(e)
    ensures HeadedSoFar(x + [e], true)
  {
    var y := x + [e];
    forall k | 0 <= k < |y| ensures HeadedAt(y, k) {
      if k < |x| { HeadedSame(x, y, k); }
    }
  }

  lemma HeadOpen(x: seq<Edit>, e: Edit)
    requires HeadedSoFar(x, false) && IsChange(e)
    ensures HeadedSoFar(x + [Hunk(|Old(x)| + 1, |New(x)| + 1)] + [e], true)
  {
    hide Old, New;
    var y := x + [Hunk(|Old(x)| + 1, |New(x)| + 1)] + [e];
    assert y[..|x|] == x;
    assert x != [] ==> !x[|x| - 1].Hunk? by { if x != [] { assert HeadedAt(x, |x| - 1); } }
    forall k | 0 <= k < |y| ensures HeadedAt(y, k) {
      if k < |x| { HeadedSame(x, y, k); }
    }
  }

  /** The walk so far: a script for the lines passed, keeping all that the table promised for them. */
  predicate Walked(a: seq<string>, b: seq<string>, i: nat, j: nat, x: seq<Edit>, open: bool) {
    && i <= |a| && j <= |b| && Old(x) == a[..i] && New(x) == b[..j]
    && Kept(x) + Lcs(a, b, i, j) == Lcs(a, b, 0, 0) && HeadedSoFar(x, open)
  }

  lemma WalkKeep(a: seq<string>, b: seq<string>, i: nat, j: nat, x: seq<Edit>, open: bool)
    requires Walked(a, b, i, j, x, open) && i < |a| && j < |b| && a[i] == b[j]
    ensures Walked(a, b, i + 1, j + 1, x + [Keep(a[i])], false)
  {
    assert Lcs(a, b, i, j) == Lcs(a, b, i + 1, j + 1) + 1;
    Appended(x, Keep(a[i]));
    HeadKeep(x, open, a[i]);
    hide Old, New, Kept, Lcs, HeadedSoFar;
    assert a[..i + 1] == a[..i] + [a[i]] && b[..j + 1] == b[..j] + [b[j]];
  }

  function Header(x: seq<Edit>, open: bool): seq<Edit> {
    if open then x else x + [Hunk(|Old(x)| + 1, |New(x)| + 1)]
  }

  lemma WalkHeader(x: seq<Edit>, open: bool, e: Edit)
    requires HeadedSoFar(x, open) && IsChange(e)
    ensures var y := Header(x, open) + [e];
            && HeadedSoFar(y, true) && Kept(y) == Kept(x)
            && Old(y) == Old(x) + (if e.Delete? then [e.line] else [])
            && New(y) == New(x) + (if e.Insert? then [e.line] else [])
  {
    hide Old, New, Kept, HeadedSoFar;
    Appended(x, Hunk(|Old(x)| + 1, |New(x)| + 1));
    Appended(Header(x, open), e);
    if open { HeadMore(x, e); } else { HeadOpen(x, e); }
  }

  lemma WalkDelete(a: seq<string>, b: seq<string>, i: nat, j: nat, x: seq<Edit>, open: bool)
    requires Walked(a, b, i, j, x, open) && i < |a| && Lcs(a, b, i, j) == Lcs(a, b, i + 1, j)
    ensures Walked(a, b, i + 1, j, Header(x, open) + [Delete(a[i])], true)
  {
    hide Old, New, Kept, HeadedSoFar, Lcs, Header;
    WalkHeader(x, open, Delete(a[i]));
    assert a[..i + 1] == a[..i] + [a[i]];
  }

  lemma WalkInsert(a: seq<string>, b: seq<string>, i: nat, j: nat, x: seq<Edit>, open: bool)
    requires Walked(a, b, i, j, x, open) && j < |b| && Lcs(a, b, i, j) == Lcs(a, b, i, j + 1)
    ensures Walked(a, b, i, j + 1, Header(x, open) + [Insert(b[j])], true)
  {
    hide Old, New, Kept, HeadedSoFar, Lcs, Header;
    WalkHeader(x, open, Insert(b[j]));
    assert b[..j + 1] == b[..j] + [b[j]];
  }

  /** The table's choice between two unequal lines. */
  lemma LcsChoice(a: seq<string>, b: seq<string>, i: nat, j: nat)
    requires i <= |a| && j <= |b| && (i < |a| || j < |b|) && !(i < |a| && j < |b| && a[i] == b[j])
    ensures i < |a| && j == |b| ==> Lcs(a, b, i, j) == Lcs(a, b, i + 1, j)
    ensures i == |a| && j < |b| ==> Lcs(a, b, i, j) == Lcs(a, b, i, j + 1)
    ensures i < |a| && j < |b| ==>
            Lcs(a, b, i, j)
            == if Lcs(a, b, i + 1, j) >= Lcs(a, b, i, j + 1) then Lcs(a, b, i + 1, j) else Lcs(a, b, i, j + 1)
  {
  }

  // ----- which script -----

  /** What the walk does at old line `i` and new line `j`: it keeps equal lines; otherwise it deletes the old line,
      unless inserting the new one keeps more lines in the end. */
  ghost predicate Choice(a: seq<string>, b: seq<string>, i: nat, j: nat, e: Edit) {
    e.Hunk? || (
      && i <= |a| && j <= |b|
      && (e.Keep? <==> i < |a| && j < |b| && a[i] == b[j])
      && (e.Delete? ==> i < |a| && (j == |b| || Lcs(a, b, i + 1, j) >= Lcs(a, b, i, j + 1)))
      && (e.Insert? ==> j < |b| && (i == |a| || Lcs(a, b, i + 1, j) < Lcs(a, b, i, j + 1))))
  }

  /** Every edit of the script is the one that the walk chooses there. */
  ghost predicate Chosen(a: seq<string>, b: seq<string>, x: seq<Edit>) {
    forall k | 0 <= k < |x| :: Choice(a, b, |Old(x[..k])|, |New(x[..k])|, x[k])
  }

  lemma ChosenMore(a: seq<string>, b: seq<string>, x: seq<Edit>, e: Edit)
    requires Chosen(a, b, x) && Choice(a, b, |Old(x)|, |New(x)|, e)
    ensures Chosen(a, b, x + [e])
  {
    hide Choice, Old, New;
    var y := x + [e];
    forall k | 0 <= k < |y| ensures Choice(a, b, |Old(y[..k])|, |New(y[..k])|, y[k]) {
      if k < |x| { assert y[..k] == x[..k]; } else { assert y[..k] == x; }
    }
  }

  lemma WalkedAt(a: seq<string>, b: seq<string>, i: nat, j: nat, x: seq<Edit>, open: bool)
    requires Walked(a, b, i, j, x, open)
    ensures |Old(x)| == i && |New(x)| == j
    ensures |Old(Header(x, open))| == i && |New(Header(x, open))| == j
  {
    hide Old, New, Kept, HeadedSoFar, Lcs;
    Appended(x, Hunk(|Old(x)| + 1, |New(x)| + 1));
  }

  /** One more edit, behind its header. */
  lemma ChosenChange(a: seq<string>, b: seq<string>, i: nat, j: nat, x: seq<Edit>, open: bool, e: Edit)
    requires Walked(a, b, i, j, x, open) && Chosen(a, b, x) && Choice(a, b, i, j, e)
    ensures Chosen(a, b, Header(x, open) + [e])
  {
    hide Walked, Chosen, Old, New;
    WalkedAt(a, b, i, j, x, open);
    if !open { ChosenMore(a, b, x, Hunk(|Old(x)| + 1, |New(x)| + 1)); }
    ChosenMore(a, b, Header(x, open), e);
  }

  lemma ChosenKeep(a: seq<string>, b: seq<string>, i: nat, j: nat, x: seq<Edit>, open: bool)
    requires Walked(a, b, i, j, x, open) && Chosen(a, b, x) && i < |a| && j < |b| && a[i] == b[j]
    ensures Chosen(a, b, x + [Keep(a[i])])
  {
    hide Walked, Chosen, Old, New;
    WalkedAt(a, b, i, j, x, open);
    ChosenMore(a, b, x, Keep(a[i]));
  }

  /** The choice at a place is one kind of edit. */
  lemma ChoiceOnly(a: seq<string>, b: seq<string>, i: nat, j: nat, e: Edit, f: Edit)
    requires Choice(a, b, i, j, e) && Choice(a, b, i, j, f) && !e.Hunk? && !f.Hunk?
    ensures (e.Keep? <==> f.Keep?) && (e.Delete? <==> f.Delete?) && (e.Insert? <==> f.Insert?)
  {
    hide Lcs;
  }

  lemma DeleteStep(a: seq<string>, b: seq<string>, i: nat, j: nat, x: seq<Edit>, open: bool)
    requires Walked(a, b, i, j, x, open) && Chosen(a, b, x) && i < |a| && j <= |b| && !(j < |b| && a[i] == b[j])
    requires j == |b| || Lcs(a, b, i + 1, j) >= Lcs(a, b, i, j + 1)
    ensures Walked(a, b, i + 1, j, Header(x, open) + [Delete(a[i])], true)
    ensures Chosen(a, b, Header(x, open) + [Delete(a[i])])
  {
    LcsChoice(a, b, i, j);
    hide Walked, Chosen, Header, Lcs;
    WalkDelete(a, b, i, j, x, open);
    ChosenChange(a, b, i, j, x, open, Delete(a[i]));
  }

  lemma InsertStep(a: seq<string>, b: seq<string>, i: nat, j: nat, x: seq<Edit>, open: bool)
    requires Walked(a, b, i, j, x, open) && Chosen(a, b, x) && i <= |a| && j < |b| && !(i < |a| && a[i] == b[j])
    requires i == |a| || Lcs(a, b, i + 1, j) < Lcs(a, b, i, j + 1)
    ensures Walked(a, b, i, j + 1, Header(x, open) + [Insert(b[j])], true)
    ensures Chosen(a, b, Header(x, open) + [Insert(b[j])])
  {
    LcsChoice(a, b, i, j);
    hide Walked, Chosen, Header, Lcs;
    WalkInsert(a, b, i, j, x, open);
    ChosenChange(a, b, i, j, x, open, Insert(b[j]));
  }

  /** The second half of `lint_print_diff`: walk both line lists along the table. */
  method Walk(a: seq<string>, b: seq<string>) returns (x: seq<Edit>)
    ensures Old(x) == a && New(x) == b && Headed(x)
    ensures Kept(x) == Lcs(a, b, 0, 0) && Chosen(a, b, x)
  {
    var t := FillTable(a, b);
    var i, j, inHunk := 0, 0, false;
    x := [];
    WalkStart(a, b);
    hide Lcs, Walked, Header, Old, New, Kept, HeadedSoFar, Headed, Chosen, Filled;
    while i < |a| || j < |b|
      invariant 0 <= i <= |a| && 0 <= j <= |b| && Walked(a, b, i, j, x, inHunk)
      invariant Filled(t, a, b, 0) && Chosen(a, b, x)
      decreases |a| - i + |b| - j
    {
      if i < |a| && j < |b| && a[i] == b[j] {
        WalkKeep(a, b, i, j, x, inHunk);
        ChosenKeep(a, b, i, j, x, inHunk);
        x := x + [Keep(a[i])];
        inHunk := false;
        i, j := i + 1, j + 1;
      } else {
        ghost var before, open := x, inHunk;
        HeaderIs(a, b, i, j, x, open);
        FilledAt(t, a, b, i, j);
        if !inHunk {
          x := x + [Hunk(i + 1, j + 1)];
          inHunk := true;
        }
        if j >= |b| || (i < |a| && t[i + 1, j] >= t[i, j + 1]) {
          DeleteStep(a, b, i, j, before, open);
          x := x + [Delete(a[i])];
          i := i + 1;
        } else {
          InsertStep(a, b, i, j, before, open);
          x := x + [Insert(b[j])];
          j := j + 1;
        }
      }
    }
    WalkEnd(a, b, x, inHunk);
  }

  lemma WalkStart(a: seq<string>, b: seq<string>)
    ensures Walked(a, b, 0, 0, [], false) && Chosen(a, b, [])
  {}

  lemma FilledAt(t: array2<nat>, a: seq<string>, b: seq<string>, i: nat, j: nat)
    requires t.Length0 == |a| + 1 && t.Length1 == |b| + 1 && Filled(t, a, b, 0) && i <= |a| && j <= |b|
    ensures i < |a| ==> t[i + 1, j] == Lcs(a, b, i + 1, j)
    ensures j < |b| ==> t[i, j + 1] == Lcs(a, b, i, j + 1)
  {
    hide Lcs;
  }

  lemma HeaderIs(a: seq<string>, b: seq<string>, i: nat, j: nat, x: seq<Edit>, open: bool)
    requires Walked(a, b, i, j, x, open)
    ensures Header(x, open) == if open then x else x + [Hunk(i + 1, j + 1)]
  {
    hide Old, New, Kept, HeadedSoFar, Lcs;
  }

  lemma WalkEnd(a: seq<string>, b: seq<string>, x: seq<Edit>, open: bool)
    requires Walked(a, b, |a|, |b|, x, open)
    ensures Old(x) == a && New(x) == b && Headed(x) && Kept(x) == Lcs(a, b, 0, 0)
  {
    hide Old, New, Kept, Headed;
    assert a[..|a|] == a && b[..|b|] == b;
  }

  /** The lines that the starts and lengths stand for. */
  method Slices(b: string, starts: array<nat>, lens: array<nat>, k: nat) returns (ls: seq<string>)
    requires k <= starts.Length && k <= lens.Length
    requires forall i | 0 <= i < k :: starts[i] + lens[i] <= |b|
    ensures |ls| == k && forall i | 0 <= i < k :: ls[i] == b[starts[i]..starts[i] + lens[i]]
  {
    ls := [];
    var i := 0;
    while i < k
      invariant 0 <= i <= k && |ls| == i && forall j | 0 <= j < i :: ls[j] == b[starts[j]..starts[j] + lens[j]]
    {
      ls := ls + [b[starts[i]..starts[i] + lens[i]]];
      i := i + 1;
    }
  }

  /**
   `lint_print_diff`: nothing but the new text when the table would be too large; otherwise a script that
   turns the old lines into the new ones, with headers at the right places, such that no script for the
   same lines keeps more or changes less and no common subsequence is longer.
   */
  method PrintDiff(a: string, b: string) returns (x: Option<seq<Edit>>)
    ensures x.None? <==> |Lines(a)| * |Lines(b)| > SIZE_CAP
    ensures x.Some? ==>
      && Old(x.value) == Lines(a) && New(x.value) == Lines(b) && Headed(x.value)
      && Chosen(Lines(a), Lines(b), x.value)
      && (forall y | Old(y) == Lines(a) && New(y) == Lines(b) ::
            Kept(y) <= Kept(x.value) && Changes(x.value) <= Changes(y))
      && (forall ps | Common(Lines(a), Lines(b), ps, 0, 0) :: |ps| <= Kept(x.value))
  {
    var starts, lens, na := SplitLines(a);
    var starts', lens', nb := SplitLines(b);
    if na * nb > SIZE_CAP { return None; }
    var al := Slices(a, starts, lens, na);
    var bl := Slices(b, starts', lens', nb);
    assert al == Lines(a) && bl == Lines(b);
    var script := Walk(al, bl);
    hide Lines, Old, New, Kept, Changes, Lcs, Headed, Chosen;
    forall y | Old(y) == Lines(a) && New(y) == Lines(b)
      ensures Kept(y) <= Kept(script) && Changes(script) <= Changes(y)
    {
      MostKeptLeastChanged(script, y);
    }
    forall ps | Common(Lines(a), Lines(b), ps, 0, 0) ensures |ps| <= Kept(script) {
      LcsMaximal(Lines(a), Lines(b), ps, 0, 0);
    }
    return Some(script);
  }
}
