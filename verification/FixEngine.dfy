/** The fix engine of `src/main.c`: sorting, splicing in place, and the rounds of `--fix`. */
module FixEngine {
  import opened Wrappers
  import opened FixSelection

  /** The text buffer that fixes are spliced into: `*pbuf` and `*plen`. */
  class TextBuf {
    var data: array<char>
    var len: nat

    ghost predicate Valid()
      reads this
    {
      len <= data.Length
    }

    ghost function Text(): string
      reads this, data
      requires Valid()
    {
      data[..len]
    }

    constructor (text: string)
      ensures Valid() && fresh(data) && Text() == text
    {
      data := new char[|text|](i requires 0 <= i < |text| => text[i]);
      len := |text|;
    }

    /** `realloc`: room for `need` bytes, the text kept. */
    method Grow(need: nat)
      requires Valid()
      modifies this
      ensures Valid() && (data == old(data) || fresh(data))
      ensures len == old(len) && data.Length >= need && data[..len] == old(data[..len])
    {
      if need > data.Length {
        var grown := new char[need];
        forall i | 0 <= i < len { grown[i] := data[i]; }
        data := grown;
      }
    }

    /** `memmove`: `n` bytes from `src` to `dst`, the ranges may overlap. */
    method Move(dst: nat, src: nat, n: nat)
      requires dst + n <= data.Length && src + n <= data.Length
      modifies data
      ensures data[..] == Moved(old(data[..]), dst, src, n)
    {
      forall i | dst <= i < dst + n { data[i] := data[i - dst + src]; }
    }

    /** `memcpy` of a string to `dst`. */
    method Copy(dst: nat, rep: string)
      requires dst + |rep| <= data.Length
      modifies data
      ensures data[..] == Spliced(old(data[..]), dst, dst + |rep|, rep)
    {
      forall i | dst <= i < dst + |rep| { data[i] := rep[i - dst]; }
    }

    /** Moves the tail behind `e` to make room, and copies the replacement to `s`. */
    method Shift(s: nat, e: nat, rep: string)
      requires Valid() && s <= e <= len && len - (e - s) + |rep| <= data.Length
      modifies data
      ensures data[..len - (e - s) + |rep|] == Spliced(old(data[..len]), s, e, rep)
    {
      hide Spliced, Moved;
      var n := len;
      ghost var d0 := data[..];
      assert d0[..n] == data[..n];
      Move(s + |rep|, e, n - e);
      ghost var d1 := data[..];
      Copy(s, rep);
      ghost var d2 := data[..];
      SpliceText(d0, d1, d2, n, s, e, rep);
      assert data[..n - (e - s) + |rep|] == d2[..n - (e - s) + |rep|];
    }

    /** Replaces `[s, e)`: the buffer grows when needed, the tail moves, the replacement is copied in. */
    method Splice(s: nat, e: nat, rep: string)
      requires Valid() && s <= e <= len
      modifies this, data
      ensures Valid() && (data == old(data) || fresh(data))
      ensures Text() == old(Text())[..s] + rep + old(Text())[e..]
    {
      var newLen := len - (e - s) + |rep|;
      ghost var was := Text();
      Grow(newLen);
      assert data[..len] == was;
      Shift(s, e, rep);
      len := newLen;
    }
  }

  /** A text with `n` characters from `src` on copied to `dst`. */
  function Moved(text: string, dst: nat, src: nat, n: nat): string
    requires dst + n <= |text| && src + n <= |text|
  {
    text[..dst] + text[src..src + n] + text[dst + n..]
  }

  /** A text with `[s, e)` replaced. */
  function Spliced(text: string, s: nat, e: nat, rep: string): string
    requires s <= e <= |text|
  {
    text[..s] + rep + text[e..]
  }

  /** The bytes after moving the tail and copying the replacement. */
  lemma SpliceText(d0: string, d1: string, d2: string, len: nat, s: nat, e: nat, rep: string)
    requires s <= e <= len <= |d0| && s + |rep| + (len - e) <= |d0|
    requires d1 == Moved(d0, s + |rep|, e, len - e) && s + |rep| <= |d1| && d2 == Spliced(d1, s, s + |rep|, rep)
    requires |d2| == |d0|
    ensures d2[..len - (e - s) + |rep|] == Spliced(d0[..len], s, e, rep)
  {
    assert d1[..s] == d0[..s];
    assert d1[s + |rep|..][..len - e] == d0[e..len];
  }

  /** The indices of the fixable items. */
  method Collect(items: seq<Diag>) returns (idx: array<nat>)
    ensures fresh(idx) && Lists(items, idx[..])
  {
    var order: seq<nat> := [];
    for i := 0 to |items|
      invariant ValidOrder(items, order) && Distinct(order)
      invariant forall k | 0 <= k < |order| :: order[k] < i
      invariant forall j | 0 <= j < |items| :: j in order <==> j < i && items[j].fixable
    {
      if items[i].fixable { order := order + [i]; }
    }
    idx := new nat[|order|](k requires 0 <= k < |order| => order[k]);
    assert idx[..] == order;
  }

  /** The first `a` indices are in place: each comes before everything behind it. */
  predicate Front(items: seq<Diag>, order: seq<nat>, a: nat)
    requires ValidOrder(items, order)
  {
    forall i, j | 0 <= i < a && i < j < |order| :: Before(items[order[i]], items[order[j]])
  }

  /** Index `a` comes before those between it and `b`. */
  predicate Head(items: seq<Diag>, order: seq<nat>, a: nat, b: nat)
    requires ValidOrder(items, order) && a < |order| && b <= |order|
  {
    forall j | a < j < b :: Before(items[order[a]], items[order[j]])
  }

  /** An exchange behind the sorted front keeps the front, and puts the earlier of the two first. */
  lemma ExchangeKeeps(items: seq<Diag>, order: seq<nat>, order': seq<nat>, a: nat, b: nat)
    requires ValidOrder(items, order) && a < b < |order| && order' == order[a := order[b]][b := order[a]]
    requires Front(items, order, a) && Head(items, order, a, b) && !Before(items[order[a]], items[order[b]])
    ensures ValidOrder(items, order') && Front(items, order', a) && Head(items, order', a, b + 1)
  {}

  /** Sorts the indices in place by exchanges. */
  method SortDescending(items: seq<Diag>, idx: array<nat>)
    requires Lists(items, idx[..])
    modifies idx
    ensures Lists(items, idx[..]) && Sorted(items, idx[..])
  {
    hide Distinct, Before;
    var a := 0;
    while a < idx.Length
      invariant 0 <= a <= idx.Length && Lists(items, idx[..])
      invariant Front(items, idx[..], a)
    {
      var b := a + 1;
      while b < idx.Length
        invariant a < b <= idx.Length && Lists(items, idx[..])
        invariant Front(items, idx[..], a) && Head(items, idx[..], a, b)
      {
        if !Before(items[idx[a]], items[idx[b]]) {
          ghost var was := idx[..];
          Exchange(items, idx, a, b);
          ExchangeKeeps(items, was, idx[..], a, b);
        }
        b := b + 1;
      }
      a := a + 1;
    }
  }

  method Exchange(items: seq<Diag>, idx: array<nat>, a: nat, b: nat)
    requires Lists(items, idx[..]) && a < b < idx.Length
    modifies idx
    ensures Lists(items, idx[..])
    ensures idx[..] == old(idx[..])[a := old(idx[b])][b := old(idx[a])]
  {
    ghost var was := idx[..];
    idx[a], idx[b] := idx[b], idx[a];
    assert idx[..] == was[a := was[b]][b := was[a]];
    forall i ensures i in idx[..] <==> i in was {
      if i in was {
        var k :| 0 <= k < |was| && was[k] == i;
        assert idx[..][if k == a then b else if k == b then a else k] == i;
      }
    }
  }

  // ----- applying -----

  /** The spans of the taken fixes in text order: the last one taken comes first. */
  function Spans(items: seq<Diag>, taken: seq<nat>): seq<Diag>
    requires ValidOrder(items, taken)
  {
    if taken == [] then []
    else [items[taken[|taken| - 1]]] + Spans(items, taken[..|taken| - 1])
  }

  lemma SpansPush(items: seq<Diag>, taken: seq<nat>, p: nat)
    requires ValidOrder(items, taken) && p < |items|
    ensures ValidOrder(items, taken + [p]) && Spans(items, taken + [p]) == [items[p]] + Spans(items, taken)
  {
    assert (taken + [p])[..|taken|] == taken;
  }

  /** The replaced text keeps everything before the first span. */
  lemma SubstitutedPrefix(text: string, ds: seq<Diag>)
    requires Ascending(ds, 0, |text|) && ds != []
    ensures ds[0].start <= |Substituted(text, ds, 0)|
  {}

  lemma PicksStep(items: seq<Diag>, order: seq<nat>, k: nat, limit: int, len: nat)
    requires ValidOrder(items, order) && k < |order|
    ensures Picks(items, order[k..], limit, len) ==
            if Fits(items[order[k]], limit, len)
              then [order[k]] + Picks(items, order[k + 1..], items[order[k]].start, len)
            else Picks(items, order[k + 1..], limit, len)
  {
    assert order[k..][1..] == order[k + 1..];
  }

  /** A fix that reaches over the lowest start taken overlaps the fix taken last. */
  lemma LateOverlaps(p: Diag, d: Diag)
    requires Before(p, d) && p.start <= p.end && d.start <= d.end && d.end > p.start
    ensures !Apart(d, p)
  {}

  /** Item `i` overlaps a taken one that starts later, or at the same place and ends no earlier. */
  ghost predicate Overlaps(items: seq<Diag>, i: nat, taken: seq<nat>)
    requires i < |items|
  {
    exists j :: j in taken && j < |items| && Before(items[j], items[i]) && !Apart(items[i], items[j])
  }

  /** What a run of the fix engine promises about the fixes it took. */
  ghost predicate Applied(text: string, items: seq<Diag>, taken: seq<nat>, buf: string) {
    && ValidOrder(items, taken) && Distinct(taken)
    && Compatible(items, set i | i in taken, |text|)
    && (forall i | 0 <= i < |items| && items[i].fixable && i !in taken ::
          !InRange(items[i], |text|) || Overlaps(items, i, taken))
    && Ascending(Spans(items, taken), 0, |text|)
    && buf == Substituted(text, Spans(items, taken), 0)
  }

  /** No compatible choice of fixes is larger. */
  ghost predicate Optimal(items: seq<Diag>, taken: seq<nat>, len: nat) {
    forall chosen: set<nat> | Compatible(items, chosen, len) :: |chosen| <= |taken|
  }

  function Limit(text: string, minStart: int): int {
    if minStart < 0 then |text| else minStart
  }

  /** Taken fixes lie in the text and each ends where an earlier taken one starts, or before. */
  predicate Stacked(items: seq<Diag>, taken: seq<nat>, len: nat) {
    && ValidOrder(items, taken)
    && (forall a | 0 <= a < |taken| :: items[taken[a]].fixable && InRange(items[taken[a]], len))
    && (forall a, b | 0 <= a < b < |taken| :: items[taken[b]].end <= items[taken[a]].start)
  }

  /** An item that was not taken is out of range or overlaps a taken one. */
  ghost predicate Settled(items: seq<Diag>, i: nat, taken: seq<nat>, len: nat)
    requires i < |items|
  {
    i in taken || !InRange(items[i], len) || Overlaps(items, i, taken)
  }

  lemma OverlapsMore(items: seq<Diag>, i: nat, taken: seq<nat>, p: nat)
    requires i < |items| && Overlaps(items, i, taken)
    ensures Overlaps(items, i, taken + [p])
  {
    var j :| j in taken && j < |items| && Before(items[j], items[i]) && !Apart(items[i], items[j]);
    assert j in taken + [p];
  }

  /** The state of the main loop before item `k` of the sorted order. */
  ghost predicate Progress(text: string, items: seq<Diag>, order: seq<nat>, k: nat, taken: seq<nat>, minStart: int,
                           buf: string) {
    && k <= |order| && Lists(items, order) && Sorted(items, order)
    && Stacked(items, taken, |text|) && Distinct(taken)
    && (forall i | i in taken :: i in order[..k])
    && (if taken == [] then minStart == -1 else minStart == items[taken[|taken| - 1]].start)
    && taken + Picks(items, order[k..], Limit(text, minStart), |text|) == Picks(items, order, |text|, |text|)
    && Ascending(Spans(items, taken), 0, |text|) && (taken == [] || Ascending(Spans(items, taken), minStart, |text|))
    && buf == Substituted(text, Spans(items, taken), 0)
    && (forall j | 0 <= j < k :: Settled(items, order[j], taken, |text|))
  }

  lemma ProgressStart(text: string, items: seq<Diag>, order: seq<nat>)
    requires Lists(items, order) && Sorted(items, order)
    ensures Progress(text, items, order, 0, [], -1, text)
  {
    assert order[0..] == order;
  }

  /** The range test reads the length of the changing buffer; together with the overlap test it still
      decides whether the fix fits the original text. */
  lemma TestsAgree(text: string, items: seq<Diag>, order: seq<nat>, k: nat, taken: seq<nat>, minStart: int, buf: string)
    requires Progress(text, items, order, k, taken, minStart, buf) && k < |order|
    ensures var d := items[order[k]];
            (InRange(d, |buf|) && !(minStart >= 0 && d.end > minStart)) <==> Fits(d, Limit(text, minStart), |text|)
  {
    if taken != [] {
      assert Spans(items, taken)[0] == items[taken[|taken| - 1]];
      SubstitutedPrefix(text, Spans(items, taken));
    }
  }

  lemma TakeText(text: string, items: seq<Diag>, order: seq<nat>, k: nat, taken: seq<nat>, minStart: int, buf: string)
    requires Progress(text, items, order, k, taken, minStart, buf) && k < |order|
    requires Fits(items[order[k]], Limit(text, minStart), |text|)
    ensures var d, ds := items[order[k]], Spans(items, taken + [order[k]]);
            && Ascending(ds, 0, |text|) && Ascending(ds, d.start, |text|)
            && d.end <= |buf| && Substituted(text, ds, 0) == buf[..d.start] + d.replacement + buf[d.end..]
  {
    var d, ds := items[order[k]], Spans(items, taken);
    SpansPush(items, taken, order[k]);
    assert Ascending(ds, d.end, |text|) by {
      if taken != [] { AscendingFrom(ds, minStart, d.end, |text|); }
    }
    SpliceIsSubstituted(text, ds, d);
    assert ([d] + ds)[1..] == ds;
  }

  lemma TakePicks(text: string, items: seq<Diag>, order: seq<nat>, k: nat, taken: seq<nat>, minStart: int, buf: string)
    requires Progress(text, items, order, k, taken, minStart, buf) && k < |order|
    requires Fits(items[order[k]], Limit(text, minStart), |text|)
    ensures taken + [order[k]] + Picks(items, order[k + 1..], Limit(text, items[order[k]].start), |text|)
            == Picks(items, order, |text|, |text|)
  {
    var lim := Limit(text, minStart);
    assert taken + Picks(items, order[k..], lim, |text|) == Picks(items, order, |text|, |text|);
    assert Limit(text, items[order[k]].start) == items[order[k]].start;
    assert Lists(items, order);
    hide *;
    PicksStep(items, order, k, lim, |text|);
    Pushed(taken, order[k], Picks(items, order[k + 1..], items[order[k]].start, |text|));
  }

  lemma Pushed(a: seq<nat>, x: nat, b: seq<nat>)
    ensures a + ([x] + b) == a + [x] + b
  {}

  lemma TakeStep(text: string, items: seq<Diag>, order: seq<nat>, k: nat, taken: seq<nat>, minStart: int, buf: string)
    requires Progress(text, items, order, k, taken, minStart, buf) && k < |order|
    requires Fits(items[order[k]], Limit(text, minStart), |text|)
    ensures order[k] < |items| && items[order[k]].start >= 0
    ensures var d := items[order[k]];
            d.end <= |buf|
            && Progress(text, items, order, k + 1, taken + [order[k]], d.start,
                        buf[..d.start] + d.replacement + buf[d.end..])
  {
    hide Ascending, Substituted, Picks, Spans, Stacked, Settled, Distinct, Limit, Sorted;
    TakeText(text, items, order, k, taken, minStart, buf);
    TakePicks(text, items, order, k, taken, minStart, buf);
    TakenStays(text, items, order, k, taken, minStart, buf);
  }

  lemma AscendingFrom(ds: seq<Diag>, a: int, b: int, len: nat)
    requires Ascending(ds, a, len) && b <= a
    ensures Ascending(ds, b, len)
  {}

  lemma TakenFrom(order: seq<nat>, k: nat, taken: seq<nat>)
    requires k < |order| && forall i | i in taken :: i in order[..k]
    ensures forall i | i in taken + [order[k]] :: i in order[..k + 1]
  {
    assert order[..k + 1] == order[..k] + [order[k]];
  }

  lemma TakenStays(text: string, items: seq<Diag>, order: seq<nat>, k: nat, taken: seq<nat>, minStart: int, buf: string)
    requires Progress(text, items, order, k, taken, minStart, buf) && k < |order|
    requires Fits(items[order[k]], Limit(text, minStart), |text|)
    ensures Stacked(items, taken + [order[k]], |text|) && Distinct(taken + [order[k]])
    ensures forall i | i in taken + [order[k]] :: i in order[..k + 1]
    ensures forall j | 0 <= j < k + 1 :: Settled(items, order[j], taken + [order[k]], |text|)
  {
    var p := order[k];
    TakenFrom(order, k, taken);
    assert p in order;
    assert p !in taken;
    assert Stacked(items, taken + [p], |text|) && Distinct(taken + [p]);
    hide Stacked, Distinct, Progress;
    forall j | 0 <= j < k + 1 ensures Settled(items, order[j], taken + [p], |text|) {
      if j < k {
        assert Settled(items, order[j], taken, |text|);
        if order[j] !in taken && InRange(items[order[j]], |text|) {
          OverlapsMore(items, order[j], taken, p);
        }
      } else {
        assert (taken + [p])[|taken|] == p;
      }
    }
  }

  lemma SkipStep(text: string, items: seq<Diag>, order: seq<nat>, k: nat, taken: seq<nat>, minStart: int, buf: string)
    requires Progress(text, items, order, k, taken, minStart, buf) && k < |order|
    requires !Fits(items[order[k]], Limit(text, minStart), |text|)
    ensures order[k] < |items| && order[k] !in taken
    ensures Progress(text, items, order, k + 1, taken, minStart, buf)
    ensures minStart >= 0 && items[order[k]].start <= items[order[k]].end && items[order[k]].end > minStart ==>
              Overlaps(items, order[k], taken)
  {
    var d := items[order[k]];
    PicksStep(items, order, k, Limit(text, minStart), |text|);
    if taken != [] && d.start <= d.end && d.end > minStart {
      var last := taken[|taken| - 1];
      assert last in taken && last in order[..k];
      var j :| 0 <= j < k && order[..k][j] == last;
      LateOverlaps(items[last], d);
    }
    assert Settled(items, order[k], taken, |text|);
    forall i | i in taken ensures i in order[..k + 1] {
      var j :| 0 <= j < k && order[..k][j] == i;
      assert order[..k + 1][j] == i;
    }
  }

  /** At the end of the loop. */
  lemma ProgressEnd(text: string, items: seq<Diag>, order: seq<nat>, taken: seq<nat>, minStart: int, buf: string)
    requires Progress(text, items, order, |order|, taken, minStart, buf)
    ensures Applied(text, items, taken, buf) && Optimal(items, taken, |text|)
  {
    assert Picks(items, order[|order|..], Limit(text, minStart), |text|) == [];
    forall i, j | i in taken && j in taken && i != j ensures Apart(items[i], items[j]) {
      var a :| 0 <= a < |taken| && taken[a] == i;
      var b :| 0 <= b < |taken| && taken[b] == j;
    }
    forall i | 0 <= i < |items| && items[i].fixable && i !in taken
      ensures !InRange(items[i], |text|) || Overlaps(items, i, taken)
    {
      assert i in order;
      var k :| 0 <= k < |order| && order[k] == i;
      assert Settled(items, order[k], taken, |text|);
    }
    forall chosen: set<nat> | Compatible(items, chosen, |text|) ensures |chosen| <= |taken| {
      PicksOptimal(items, order, |text|, |text|, chosen);
    }
  }

  /** What the statuses and the counter say before item `k` of the sorted order. */
  ghost predicate Tally(items: seq<Diag>, order: seq<nat>, k: nat, status: seq<int>, taken: seq<nat>, skipped: nat) {
    && |status| == |items| && ValidOrder(items, order) && Distinct(order) && skipped == multiset(status)[2]
    && (forall i | 0 <= i < |items| :: status[i] == 1 <==> i in taken)
    && (forall i | 0 <= i < |items| && status[i] == 2 :: Overlaps(items, i, taken))
    && (forall i | k <= i < |order| :: status[order[i]] == 0)
  }

  lemma TallyStart(items: seq<Diag>, order: seq<nat>)
    requires Lists(items, order)
    ensures Tally(items, order, 0, seq(|items|, i => 0), [], 0)
  {
    var status := seq(|items|, i => 0);
    assert 2 !in status;
  }

  lemma TallyPast(items: seq<Diag>, order: seq<nat>, k: nat, status: seq<int>, taken: seq<nat>, skipped: nat)
    requires Tally(items, order, k, status, taken, skipped)
    ensures Tally(items, order, k + 1, status, taken, skipped)
  {}

  /** One status is set, for the first time. */
  lemma TallySet(items: seq<Diag>, order: seq<nat>, k: nat, status: seq<int>, taken: seq<nat>, skipped: nat, v: int)
    requires Tally(items, order, k, status, taken, skipped) && k < |order| && v != 0
    ensures order[k] < |status| && multiset(status[order[k] := v])[2] == skipped + if v == 2 then 1 else 0
    ensures order[k] !in taken && forall i | k + 1 <= i < |order| :: status[order[k] := v][order[i]] == 0
  {
    assert multiset(status[order[k] := v]) == multiset(status) - multiset{status[order[k]]} + multiset{v};
  }

  lemma TallySkip(items: seq<Diag>, order: seq<nat>, k: nat, status: seq<int>, taken: seq<nat>, skipped: nat)
    requires Tally(items, order, k, status, taken, skipped) && k < |order| && order[k] < |items|
             && Overlaps(items, order[k], taken)
    ensures Tally(items, order, k + 1, status[order[k] := 2], taken, skipped + 1)
  {
    hide Overlaps;
    TallySet(items, order, k, status, taken, skipped, 2);
  }

  lemma TallyTake(items: seq<Diag>, order: seq<nat>, k: nat, status: seq<int>, taken: seq<nat>, skipped: nat)
    requires Tally(items, order, k, status, taken, skipped) && k < |order|
    ensures order[k] < |status| && Tally(items, order, k + 1, status[order[k] := 1], taken + [order[k]], skipped)
  {
    hide Overlaps;
    var p := order[k];
    var status', taken' := status[p := 1], taken + [p];
    TallySet(items, order, k, status, taken, skipped, 1);
    forall i | 0 <= i < |items| ensures status'[i] == 1 <==> i in taken' {}
    forall i | 0 <= i < |items| && status'[i] == 2 ensures Overlaps(items, i, taken') {
      OverlapsMore(items, i, taken, p);
    }
  }

  /** `lint_apply_fixes`.  `status[i]` is 1 for an applied fix, 2 for one skipped as overlapping. */
  // ----- the status of every finding -----

  /** How much longer the text is after some fixes. */
  function Growth(items: seq<Diag>, taken: seq<nat>): int
    requires ValidOrder(items, taken)
  {
    if taken == [] then 0
    else
      var d := items[taken[|taken| - 1]];
      Growth(items, taken[..|taken| - 1]) + |d.replacement| - (d.end - d.start)
  }

  lemma GrowthPush(items: seq<Diag>, taken: seq<nat>, p: nat)
    requires ValidOrder(items, taken) && p < |items|
    ensures ValidOrder(items, taken + [p])
    ensures var d := items[p];
            Growth(items, taken + [p]) == Growth(items, taken) + |d.replacement| - (d.end - d.start)
  {
    assert (taken + [p])[..|taken|] == taken;
  }

  /** Finding `i` came up when `m` fixes had been applied, those that sort before it, and its status says what
      became of it: applied, left out for its range in the text as it was then, or skipped. */
  ghost predicate Verdict(items: seq<Diag>, taken: seq<nat>, len: nat, i: nat, m: nat, status: int) {
    && i < |items| && ValidOrder(items, taken) && m <= |taken|
    && (forall a | 0 <= a < m :: Before(items[taken[a]], items[i]))
    && (forall a | m <= a < |taken| :: Before(items[i], items[taken[a]]))
    && ValidOrder(items, taken[..m])
    && status == if i in taken then 1
                 else if items[i].start < 0 || items[i].start > items[i].end
                         || items[i].end > len + Growth(items, taken[..m]) then 0
                 else 2
  }

  /** Every fixable finding has its verdict, and the others have none. */
  ghost predicate Judged(items: seq<Diag>, taken: seq<nat>, len: nat, status: seq<int>) {
    && |status| == |items|
    && forall i | 0 <= i < |items| ::
         if items[i].fixable then exists m: nat :: Verdict(items, taken, len, i, m, status[i]) else status[i] == 0
  }

  ghost predicate JudgedSoFar(
    items: seq<Diag>, order: seq<nat>, k: nat, taken: seq<nat>, len: nat, status: seq<int>, seen: seq<nat>)
  {
    && |status| == |items| == |seen| && k <= |order| && Lists(items, order) && Sorted(items, order)
    && (forall j | 0 <= j < k :: Verdict(items, taken, len, order[j], seen[order[j]], status[order[j]]))
    && (forall i | 0 <= i < |items| && i !in order[..k] :: status[i] == 0)
    && (forall i | i in taken :: i in order[..k])
  }

  lemma VerdictKept(items: seq<Diag>, order: seq<nat>, j: nat, k: nat, taken: seq<nat>, len: nat, m: nat, status: int)
    requires Lists(items, order) && Sorted(items, order) && j < k < |order|
    requires Verdict(items, taken, len, order[j], m, status)
    ensures Verdict(items, taken + [order[k]], len, order[j], m, status)
  {
    hide Growth, Before;
    var taken' := taken + [order[k]];
    assert taken'[..m] == taken[..m];
    assert Before(items[order[j]], items[order[k]]);
  }

  /** The finding that comes up. */
  lemma JudgeNext(
    items: seq<Diag>, order: seq<nat>, k: nat, taken: seq<nat>, len: nat, status: seq<int>, seen: seq<nat>,
    taken': seq<nat>, v: int) returns (seen': seq<nat>)
    requires JudgedSoFar(items, order, k, taken, len, status, seen) && k < |order| && ValidOrder(items, taken)
    requires taken' == taken || taken' == taken + [order[k]]
    requires var d := items[order[k]];
             v == if taken' != taken then 1
                  else if d.start < 0 || d.start > d.end || d.end > len + Growth(items, taken) then 0
                  else 2
    ensures order[k] < |status|
    ensures JudgedSoFar(items, order, k + 1, taken', len, status[order[k] := v], seen')
  {
    var p := order[k];
    var status' := status[p := v];
    seen' := seen[p := |taken|];
    assert order[..k + 1] == order[..k] + [p];
    hide Growth, Before;
    forall j | 0 <= j < k + 1 ensures Verdict(items, taken', len, order[j], seen'[order[j]], status'[order[j]]) {
      if j < k {
        assert order[j] != p;
        if taken' != taken { VerdictKept(items, order, j, k, taken, len, seen[order[j]], status[order[j]]); }
      } else {
        NextVerdict(items, order, k, taken, len, taken', v);
      }
    }
  }

  lemma NextVerdict(items: seq<Diag>, order: seq<nat>, k: nat, taken: seq<nat>, len: nat, taken': seq<nat>, v: int)
    requires Lists(items, order) && Sorted(items, order) && k < |order| && ValidOrder(items, taken)
    requires forall i | i in taken :: i in order[..k]
    requires taken' == taken || taken' == taken + [order[k]]
    requires var d := items[order[k]];
             v == if taken' != taken then 1
                  else if d.start < 0 || d.start > d.end || d.end > len + Growth(items, taken) then 0
                  else 2
    ensures Verdict(items, taken', len, order[k], |taken|, v)
  {
    hide Growth;
    var p := order[k];
    assert taken'[..|taken|] == taken;
    assert p !in taken;
    forall a | 0 <= a < |taken| ensures Before(items[taken'[a]], items[p]) {
      assert taken[a] in order[..k];
    }
  }

  lemma JudgedEnd(items: seq<Diag>, order: seq<nat>, taken: seq<nat>, len: nat, status: seq<int>, seen: seq<nat>)
    requires JudgedSoFar(items, order, |order|, taken, len, status, seen)
    ensures Judged(items, taken, len, status)
  {
    hide Verdict, Sorted;
    assert order[..|order|] == order;
    forall i | 0 <= i < |items|
      ensures if items[i].fixable then exists m: nat :: Verdict(items, taken, len, i, m, status[i]) else status[i] == 0
    {
      if items[i].fixable {
        var j :| 0 <= j < |order| && order[j] == i;
        assert Verdict(items, taken, len, order[j], seen[order[j]], status[order[j]]);
      }
    }
  }

  lemma JudgedStart(items: seq<Diag>, order: seq<nat>, len: nat)
    requires Lists(items, order) && Sorted(items, order)
    ensures JudgedSoFar(items, order, 0, [], len, seq(|items|, i => 0), seq(|items|, i => 0))
  {}

  method ApplyFixes(buf: TextBuf, items: seq<Diag>)
    returns (status: seq<int>, applied: nat, skipped: nat, ghost taken: seq<nat>)
    requires buf.Valid()
    modifies buf, buf.data
    ensures buf.Valid() && (buf.data == old(buf.data) || fresh(buf.data))
    ensures |status| == |items| && forall i | 0 <= i < |items| :: status[i] == 1 <==> i in taken
    ensures forall i | 0 <= i < |items| && status[i] == 2 :: Overlaps(items, i, taken)
    ensures applied == |taken| && skipped == multiset(status)[2]
    ensures Judged(items, taken, |old(buf.Text())|, status)
    ensures Applied(old(buf.Text()), items, taken, buf.Text())
    ensures Optimal(items, taken, |old(buf.Text())|)
  {
    hide Progress, Applied, Optimal, Sorted, Distinct, Fits, Limit, Overlaps, Tally, JudgedSoFar, Judged, Growth;
    ghost var text := buf.Text();
    var idx := Collect(items);
    SortDescending(items, idx);
    var order := idx[..];
    status := seq(|items|, i => 0);
    applied, skipped, taken := 0, 0, [];
    var minStart := -1;
    ProgressStart(text, items, order);
    TallyStart(items, order);
    JudgedStart(items, order, |text|);
    ghost var seen := seq(|items|, i => 0);
    NoGrowth(items);
    for k := 0 to |order|
      invariant buf.Valid() && (buf.data == old(buf.data) || fresh(buf.data))
      invariant Progress(text, items, order, k, taken, minStart, buf.Text())
      invariant |status| == |items| && Tally(items, order, k, status, taken, skipped) && applied == |taken|
      invariant JudgedSoFar(items, order, k, taken, |text|, status, seen)
      invariant ValidOrder(items, taken) && buf.len == |text| + Growth(items, taken)
    {
      var d := items[order[k]];
      TestsAgree(text, items, order, k, taken, minStart, buf.Text());
      if d.start < 0 || d.end > buf.len || d.start > d.end {
        SkipStep(text, items, order, k, taken, minStart, buf.Text());
        TallyPast(items, order, k, status, taken, skipped);
        seen := JudgeNext(items, order, k, taken, |text|, status, seen, taken, 0);
        Unmarked(items, order, k, status, taken, skipped);
      } else if minStart >= 0 && d.end > minStart {
        SkipStep(text, items, order, k, taken, minStart, buf.Text());
        TallySkip(items, order, k, status, taken, skipped);
        seen := JudgeNext(items, order, k, taken, |text|, status, seen, taken, 2);
        status := status[order[k] := 2];
        skipped := skipped + 1;
      } else {
        TakeStep(text, items, order, k, taken, minStart, buf.Text());
        TallyTake(items, order, k, status, taken, skipped);
        GrowthPush(items, taken, order[k]);
        seen := JudgeNext(items, order, k, taken, |text|, status, seen, taken + [order[k]], 1);
        buf.Splice(d.start, d.end, d.replacement);
        minStart := d.start;
        status := status[order[k] := 1];
        applied := applied + 1;
        taken := taken + [order[k]];
      }
    }
    ProgressEnd(text, items, order, taken, minStart, buf.Text());
    TallyEnd(items, order, status, taken, skipped);
    JudgedEnd(items, order, taken, |text|, status, seen);
  }

  lemma NoGrowth(items: seq<Diag>)
    ensures Growth(items, []) == 0
  {}

  lemma Unmarked(items: seq<Diag>, order: seq<nat>, k: nat, status: seq<int>, taken: seq<nat>, skipped: nat)
    requires Tally(items, order, k, status, taken, skipped) && k < |order|
    ensures order[k] < |status| && status[order[k] := 0] == status
  {
    assert status[order[k]] == 0;
  }

  lemma TallyEnd(items: seq<Diag>, order: seq<nat>, status: seq<int>, taken: seq<nat>, skipped: nat)
    requires Tally(items, order, |order|, status, taken, skipped)
    ensures |status| == |items| && skipped == multiset(status)[2]
    ensures forall i | 0 <= i < |items| :: status[i] == 1 <==> i in taken
    ensures forall i | 0 <= i < |items| && status[i] == 2 :: Overlaps(items, i, taken)
  {
    hide Overlaps;
  }

  // ----- rounds -----

  const MAX_ROUNDS := 16

  /** The text parses, and no finding of the linter on it can be applied: `--fix` leaves it alone. */
  ghost predicate AtFixpoint(lint: string -> Option<seq<Diag>>, text: string) {
    && lint(text).Some?
    && forall d | d in lint(text).value && d.fixable :: !InRange(d, |text|)
  }

  lemma NothingTaken(text: string, items: seq<Diag>, buf: string)
    requires Applied(text, items, [], buf)
    ensures buf == text && forall d | d in items && d.fixable :: !InRange(d, |text|)
  {
    forall d | d in items && d.fixable ensures !InRange(d, |text|) {
      var i :| 0 <= i < |items| && items[i] == d;
      assert !Overlaps(items, i, []);
    }
  }

  /** One round that changes something: an optimal set of the linter's fixes, at least one, applied at once. */
  ghost predicate Rewrites(lint: string -> Option<seq<Diag>>, t: string, t': string) {
    && lint(t).Some?
    && exists taken :: taken != [] && Applied(t, lint(t).value, taken, t') && Optimal(lint(t).value, taken, |t|)
  }

  /** The texts of a run, each rewritten into the next. */
  ghost predicate Trail(lint: string -> Option<seq<Diag>>, trail: seq<string>, from: string, to: string) {
    && trail != [] && trail[0] == from && trail[|trail| - 1] == to
    && forall k | 0 <= k < |trail| - 1 :: Rewrites(lint, trail[k], trail[k + 1])
  }

  lemma TrailGrows(lint: string -> Option<seq<Diag>>, trail: seq<string>, from: string, to: string, t: string,
                   taken: seq<nat>)
    requires Trail(lint, trail, from, to) && lint(to).Some? && taken != []
    requires Applied(to, lint(to).value, taken, t) && Optimal(lint(to).value, taken, |to|)
    ensures Trail(lint, trail + [t], from, t)
  {
    hide Applied, Optimal;
    var r := trail + [t];
    forall k | 0 <= k < |r| - 1 ensures Rewrites(lint, r[k], r[k + 1]) {
      if k == |trail| - 1 {
        assert r[k] == to && r[k + 1] == t;
      } else {
        assert r[k] == trail[k] && r[k + 1] == trail[k + 1];
      }
    }
  }

  /** No chain of 17 rewritings starts at the text: the rounds are enough for it. */
  ghost predicate Settles(lint: string -> Option<seq<Diag>>, text: string) {
    forall trail, to :: Trail(lint, trail, text, to) ==> |trail| < MAX_ROUNDS + 2
  }

  /** A text settles when every rewriting lowers a count that starts at 16 or less. */
  lemma MeasureSettles(lint: string -> Option<seq<Diag>>, measure: string -> nat, text: string)
    requires forall t, t' :: Rewrites(lint, t, t') ==> measure(t') < measure(t)
    requires measure(text) <= MAX_ROUNDS
    ensures Settles(lint, text)
  {
    forall trail, to | Trail(lint, trail, text, to) ensures |trail| < MAX_ROUNDS + 2 {
      TrailFalls(lint, measure, trail, |trail| - 1);
    }
  }

  lemma {:induction false} TrailFalls(lint: string -> Option<seq<Diag>>, measure: string -> nat, trail: seq<string>,
                                      k: nat)
    requires forall t, t' :: Rewrites(lint, t, t') ==> measure(t') < measure(t)
    requires k < |trail| && forall k | 0 <= k < |trail| - 1 :: Rewrites(lint, trail[k], trail[k + 1])
    ensures measure(trail[k]) + k <= measure(trail[0])
  {
    hide Rewrites;
    if k > 0 {
      TrailFalls(lint, measure, trail, k - 1);
      assert Rewrites(lint, trail[k - 1], trail[k - 1 + 1]);
    }
  }

  /** The rewriting loop of `run_lint_mode`.  `lint` stands for parsing and linting a text; it is
      `None` when the text does not parse.  `ok` says whether the result may be written. */
  method RunFix(text: string, lint: string -> Option<seq<Diag>>)
    returns (ok: bool, buf: TextBuf, total: nat, rounds: nat, ghost trail: seq<string>)
    ensures buf.Valid() && rounds <= MAX_ROUNDS && Trail(lint, trail, text, buf.Text())
    ensures |trail| <= rounds + 2 && (total == 0 <==> |trail| == 1)
    ensures !ok ==> lint(buf.Text()).None?
    ensures ok && rounds < MAX_ROUNDS ==> AtFixpoint(lint, buf.Text())
    ensures ok && rounds == MAX_ROUNDS ==> AtFixpoint(lint, buf.Text()) || |trail| == MAX_ROUNDS + 2
    ensures ok && Settles(lint, text) ==> AtFixpoint(lint, buf.Text())
  {
    hide Applied, Optimal, Trail;
    buf := new TextBuf(text);
    total, rounds, trail := 0, 0, [text];
    assert Trail(lint, trail, text, text) by { TrailStart(lint, text); }
    if lint(text).None? { return false, buf, 0, 0, trail; }
    ok := true;
    ghost var taken;
    var status, skipped;
    status, total, skipped, taken := ApplyFixes(buf, lint(text).value);
    if total == 0 { NothingTaken(text, lint(text).value, buf.Text()); }
    else {
      TrailGrows(lint, trail, text, text, buf.Text(), taken);
      trail := trail + [buf.Text()];
    }
    var done := total == 0;
    while !done && ok && rounds < MAX_ROUNDS
      invariant buf.Valid() && fresh(buf) && fresh(buf.data)
      invariant rounds <= MAX_ROUNDS && Trail(lint, trail, text, buf.Text()) && (total == 0 <==> |trail| == 1)
      invariant done && ok ==> AtFixpoint(lint, buf.Text())
      invariant |trail| <= rounds + 2 && (!done ==> total > 0 && (ok ==> |trail| == rounds + 2))
      invariant !ok ==> lint(buf.Text()).None?
      decreases MAX_ROUNDS - rounds, !done
    {
      rounds := rounds + 1;
      var now := buf.data[..buf.len];
      match lint(now)
      case None => ok := false;
      case Some(items) =>
        var applied;
        status, applied, skipped, taken := ApplyFixes(buf, items);
        if applied == 0 {
          NothingTaken(now, items, buf.Text());
          done := true;
        } else {
          TrailGrows(lint, trail, text, now, buf.Text(), taken);
          trail := trail + [buf.Text()];
        }
        total := total + applied;
    }
  }

  lemma TrailStart(lint: string -> Option<seq<Diag>>, text: string)
    ensures Trail(lint, [text], text, text)
  {
  }
}
