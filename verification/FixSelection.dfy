/** Which fixes `--fix` applies: the greedy rule of `lint_apply_fixes` and why it is optimal. */
module FixSelection {

  /** The parts of a `LintDiag` that fixing looks at.  A missing replacement is the empty one. */
  datatype Diag = Diag(fixable: bool, start: int, end: int, replacement: string)

  predicate InRange(d: Diag, len: nat) {
    0 <= d.start <= d.end <= len
  }

  /** Two spans do not overlap.  Empty spans touch at most their ends. */
  predicate Apart(a: Diag, b: Diag) {
    a.end <= b.start || b.end <= a.start
  }

  /** The sort order: span start descending, then span end descending. */
  predicate Before(a: Diag, b: Diag) {
    a.start > b.start || (a.start == b.start && a.end >= b.end)
  }

  predicate ValidOrder(items: seq<Diag>, order: seq<nat>) {
    forall k | 0 <= k < |order| :: order[k] < |items|
  }

  predicate Distinct(order: seq<nat>) {
    forall i, j | 0 <= i < j < |order| :: order[i] != order[j]
  }

  predicate Sorted(items: seq<Diag>, order: seq<nat>)
    requires ValidOrder(items, order)
  {
    forall i, j | 0 <= i < j < |order| :: Before(items[order[i]], items[order[j]])
  }

  /** Every fixable item, once. */
  predicate Lists(items: seq<Diag>, order: seq<nat>) {
    && ValidOrder(items, order) && Distinct(order)
    && forall i | 0 <= i < |items| :: i in order <==> items[i].fixable
  }

  /** A fix is taken when it lies in the text and ends at or before every fix taken so far. */
  predicate Fits(d: Diag, limit: int, len: nat) {
    InRange(d, len) && d.end <= limit
  }

  /** The fixes taken, in the order they are applied; `limit` is the lowest start taken so far. */
  function Picks(items: seq<Diag>, order: seq<nat>, limit: int, len: nat): (r: seq<nat>)
    requires ValidOrder(items, order)
  {
    if order == [] then []
    else if Fits(items[order[0]], limit, len) then
      [order[0]] + Picks(items, order[1..], items[order[0]].start, len)
    else Picks(items, order[1..], limit, len)
  }

  /** Fixable items that lie in the text and do not overlap one another. */
  ghost predicate Compatible(items: seq<Diag>, chosen: set<nat>, len: nat) {
    && (forall c | c in chosen :: c < |items| && items[c].fixable && InRange(items[c], len))
    && (forall c, d | c in chosen && d in chosen && c != d :: Apart(items[c], items[d]))
  }

  /** Of the compatible fixes that start no later than `h`, at most one ends behind the start of `h`,
      and none if `h` is among them. */
  lemma AtMostOneLate(items: seq<Diag>, chosen: set<nat>, len: nat, h: nat, c: nat, d: nat)
    requires Compatible(items, chosen, len) && h < |items| && InRange(items[h], len)
    requires c in chosen && d in chosen && c != d && c != h
    requires Before(items[h], items[c]) && (d == h || Before(items[h], items[d]))
    requires items[c].end > items[h].start
    ensures d != h && items[d].end <= items[h].start
  {
    assert Apart(items[c], items[d]);
  }

  /** Greedy stays ahead: no compatible choice among the remaining fixes is larger. */
  lemma {:induction false} PicksOptimal(items: seq<Diag>, order: seq<nat>, limit: int, len: nat, chosen: set<nat>)
    requires ValidOrder(items, order) && Sorted(items, order) && Distinct(order)
    requires Compatible(items, chosen, len)
    requires forall c | c in chosen :: c in order && items[c].end <= limit
    ensures |chosen| <= |Picks(items, order, limit, len)|
    decreases |order|
  {
    if order == [] {
      assert chosen == {};
    } else {
      var h := order[0];
      assert order == [h] + order[1..];
      if !Fits(items[h], limit, len) {
        PicksOptimal(items, order[1..], limit, len, chosen);
      } else {
        var late := h;
        if c :| c in chosen && c != h && items[c].end > items[h].start {
          late := c;
        }
        var rest := chosen - {late};
        forall d | d in rest ensures d in order[1..] && items[d].end <= items[h].start {
          LateRest(items, order, len, chosen, h, late, d);
        }
        PicksOptimal(items, order[1..], items[h].start, len, rest);
        assert |rest| >= |chosen| - 1;
      }
    }
  }

  lemma LateRest(items: seq<Diag>, order: seq<nat>, len: nat, chosen: set<nat>, h: nat, late: nat, d: nat)
    requires ValidOrder(items, order) && Sorted(items, order) && order != [] && order[0] == h && InRange(items[h], len)
    requires Compatible(items, chosen, len) && d in chosen && d != late
    requires forall c | c in chosen :: c in order
    requires late != h ==> late in chosen && items[late].end > items[h].start
    requires late == h ==> forall c | c in chosen && c != h :: items[c].end <= items[h].start
    ensures d in order[1..] && items[d].end <= items[h].start
  {
    if late != h {
      var i, j :| 0 <= i < |order| && order[i] == late && 0 <= j < |order| && order[j] == d;
      AtMostOneLate(items, chosen, len, h, late, d);
    }
    var j :| 0 <= j < |order| && order[j] == d;
    assert order[1..][j - 1] == d;
  }

  // ----- substituting spans -----

  /** The spans lie in the text from `from` on, one behind the other. */
  predicate Ascending(ds: seq<Diag>, from: int, len: nat) {
    ds == [] || (from <= ds[0].start <= ds[0].end <= len && Ascending(ds[1..], ds[0].end, len))
  }

  /** The text from `from` on with every span replaced at once; what lies between the spans stays. */
  function Substituted(text: string, ds: seq<Diag>, from: nat): string
    requires from <= |text| && Ascending(ds, from, |text|)
  {
    if ds == [] then text[from..]
    else text[from..ds[0].start] + ds[0].replacement + Substituted(text, ds[1..], ds[0].end)
  }

  /** Splicing one more span in front of those replaced is replacing one more span: the bytes of the
      span are still those of the text. */
  lemma SpliceIsSubstituted(text: string, ds: seq<Diag>, d: Diag)
    requires InRange(d, |text|) && Ascending(ds, d.end, |text|)
    ensures Ascending(ds, 0, |text|) && Ascending([d] + ds, 0, |text|)
    ensures var buf := Substituted(text, ds, 0);
            && d.end <= |buf| && buf[..d.end] == text[..d.end]
            && Substituted(text, [d] + ds, 0) == buf[..d.start] + d.replacement + buf[d.end..]
  {
    assert ([d] + ds)[1..] == ds;
    var buf, rest := Substituted(text, ds, 0), Substituted(text, ds, d.end);
    if ds != [] {
      var tail := ds[0].replacement + Substituted(text, ds[1..], ds[0].end);
      assert buf == text[..ds[0].start] + tail && rest == text[d.end..ds[0].start] + tail;
    }
    assert buf[d.end..] == rest && buf[..d.start] == text[..d.start];
  }
}
