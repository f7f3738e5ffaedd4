/** Bracket pairs: the tables that `fs_build` fills, and the loop that fills them. */
module FmtPairs {
  import opened Chars
  import opened LexerSpec
  import opened FmtScan

  /** The tables, with -1 for "no partner", and the stack of open brackets. */
  datatype Tables = Tables(close: seq<int>, open: seq<int>, group: seq<bool>, stack: seq<nat>)

  predicate Sized(s: string, p: Tables) {
    && |p.close| == |p.open| == |p.group| == |s| + 1
    && forall k | 0 <= k < |p.stack| :: p.stack[k] < |s|
  }

  function Empty(s: string): Tables {
    Tables(seq(|s| + 1, _ => -1), seq(|s| + 1, _ => -1), seq(|s| + 1, _ => false), [])
  }

  function Wanted(c: char): char { if c == ')' then '(' else if c == '}' then '{' else '[' }

  /** A parenthesis that groups, judged by the character before it. */
  predicate Groups(prev: char) {
    !(IsWordChar(prev) || prev == ')' || prev == ']' || prev == '@' || prev == '$' || prev == '"')
  }

  /** The height of the stack below the nearest wanted bracket; 0 when there is none. */
  function Below(s: string, stack: seq<nat>, want: char): (k: nat)
    requires forall k | 0 <= k < |stack| :: stack[k] < |s|
    ensures k <= |stack|
    ensures Hit(s, stack, want) ==> k < |stack| && s[stack[k]] == want
  {
    if stack == [] then 0
    else if s[stack[|stack| - 1]] == want then |stack| - 1
    else Below(s, stack[..|stack| - 1], want)
  }

  predicate Hit(s: string, stack: seq<nat>, want: char)
    requires forall k | 0 <= k < |stack| :: stack[k] < |s|
  {
    stack != [] && (s[stack[|stack| - 1]] == want || Hit(s, stack[..|stack| - 1], want))
  }

  /** One event. */
  function Handle(s: string, p: Tables, e: Event): (q: Tables)
    requires Sized(s, p) && (e.Bracket? ==> e.at < |s|)
    ensures Sized(s, q)
  {
    if e.Comment? then p
    else if IsOpen(s[e.at]) then
      p.(stack := p.stack + [e.at], group := if s[e.at] == '(' then p.group[e.at := Groups(e.prev)] else p.group)
    else
      var k := Below(s, p.stack, Wanted(s[e.at]));
      if Hit(s, p.stack, Wanted(s[e.at])) then
        Tables(p.close[p.stack[k] := e.at], p.open[e.at := p.stack[k]], p.group, p.stack[..k])
      else p.(stack := [])
  }

  predicate InText(s: string, es: seq<Event>) { forall k | 0 <= k < |es| :: es[k].Bracket? ==> es[k].at < |s| }

  function HandleAll(s: string, p: Tables, es: seq<Event>): (q: Tables)
    requires Sized(s, p) && InText(s, es)
    ensures Sized(s, q)
    decreases |es|
  {
    if es == [] then p else HandleAll(s, Handle(s, p, es[0]), es[1..])
  }

  // ----- what the tables keep -----

  /** Both tables say the same, and pair an opening bracket with a later closing one of its kind. */
  predicate Inverse(s: string, p: Tables, i: nat)
    requires Sized(s, p)
  {
    && (forall o | 0 <= o <= |s| && p.close[o] != -1 ::
          o < p.close[o] < i <= |s| && p.open[p.close[o]] == o && IsClose(s[p.close[o]])
            && s[o] == Wanted(s[p.close[o]]))
    && (forall c | 0 <= c <= |s| && p.open[c] != -1 :: 0 <= p.open[c] < |s| && p.close[p.open[c]] == c)
  }

  /** Pairs never cross. */
  predicate Nested(s: string, p: Tables)
    requires Sized(s, p)
  {
    forall o, o' | 0 <= o < o' <= |s| && p.close[o] != -1 && p.close[o'] != -1 && o' < p.close[o] ::
      p.close[o'] < p.close[o]
  }

  /** The stack holds unpaired places in ascending order, none inside a pair. */
  predicate Stacked(s: string, p: Tables, i: nat)
    requires Sized(s, p)
  {
    && |p.stack| <= i
    && (forall k | 0 <= k < |p.stack| :: p.stack[k] < i && p.close[p.stack[k]] == -1)
    && (forall j, k | 0 <= j < k < |p.stack| :: p.stack[j] < p.stack[k])
    && (forall o, k | 0 <= o <= |s| && p.close[o] != -1 && 0 <= k < |p.stack| ::
          p.stack[k] < o || p.close[o] < p.stack[k])
  }

  predicate Sound(s: string, p: Tables, i: nat) {
    Sized(s, p) && i <= |s| && Inverse(s, p, i) && Nested(s, p) && Stacked(s, p, i)
  }

  lemma EmptySound(s: string)
    ensures Sound(s, Empty(s), 0)
  {
  }

  lemma PushSound(s: string, p: Tables, at: nat, prev: char)
    requires Sound(s, p, at) && at < |s| && IsOpen(s[at])
    ensures Sound(s, Handle(s, p, Bracket(at, prev)), at + 1)
  {
    var q := Handle(s, p, Bracket(at, prev));
    assert p.close[at] == -1;
    assert forall k | 0 <= k < |p.stack| :: q.stack[k] == p.stack[k];
    forall o, k | 0 <= o <= |s| && q.close[o] != -1 && 0 <= k < |q.stack|
      ensures q.stack[k] < o || q.close[o] < q.stack[k]
    {
      if k == |p.stack| { assert q.close[o] < at; }
    }
  }

  lemma PopSound(s: string, p: Tables, at: nat, prev: char)
    requires Sound(s, p, at) && at < |s| && IsClose(s[at])
    ensures Sound(s, Handle(s, p, Bracket(at, prev)), at + 1)
  {
    var q := Handle(s, p, Bracket(at, prev));
    if Hit(s, p.stack, Wanted(s[at])) {
      var k := Below(s, p.stack, Wanted(s[at]));
      PairSound(s, p, at, k);
    }
  }

  lemma PairSound(s: string, p: Tables, at: nat, k: nat)
    requires Sound(s, p, at) && at < |s| && k < |p.stack| && IsClose(s[at]) && s[p.stack[k]] == Wanted(s[at])
    ensures Sound(s, Tables(p.close[p.stack[k] := at], p.open[at := p.stack[k]], p.group, p.stack[..k]), at + 1)
  {
    var x := p.stack[k];
    var q := Tables(p.close[x := at], p.open[at := x], p.group, p.stack[..k]);
    assert p.open[at] == -1;
    assert Inverse(s, q, at + 1);
    assert Nested(s, q);
    assert Stacked(s, q, at + 1);
  }

  lemma HandleSound(s: string, p: Tables, at: nat, prev: char)
    requires Sound(s, p, at) && at < |s| && (IsOpen(s[at]) || IsClose(s[at]))
    ensures Sound(s, Handle(s, p, Bracket(at, prev)), at + 1)
  {
    hide Sound, Handle;
    if IsOpen(s[at]) { PushSound(s, p, at, prev); } else { PopSound(s, p, at, prev); }
  }

  /** Soundness at one place holds at every later one. */
  lemma SoundLater(s: string, p: Tables, i: nat, j: nat)
    requires Sound(s, p, i) && i <= j <= |s|
    ensures Sound(s, p, j)
  {
  }

  lemma {:induction false} EventsInText(s: string, i: nat, prev: char)
    requires i <= |s|
    ensures InText(s, Events(s, i, prev))
    decreases |s| - i
  {
    if i < |s| {
      var t := TurnAt(s, i, prev);
      assert InText(s, t.seen);
      EventsTurn(s, i, prev);
      EventsInText(s, t.next, t.prev);
      hide TurnAt, Events;
    }
  }

  lemma HandleFirst(s: string, p: Tables, e: Event, es: seq<Event>)
    requires Sized(s, p) && (e.Bracket? ==> e.at < |s|) && InText(s, es)
    ensures InText(s, [e] + es) && HandleAll(s, p, [e] + es) == HandleAll(s, Handle(s, p, e), es)
  {
    assert ([e] + es)[1..] == es;
    forall k | 0 <= k < |es| + 1 ensures ([e] + es)[k].Bracket? ==> ([e] + es)[k].at < |s| {
      if k > 0 { assert ([e] + es)[k] == es[k - 1]; }
    }
  }

  lemma HandleNone(s: string, p: Tables)
    requires Sized(s, p)
    ensures HandleAll(s, p, []) == p
  {
  }

  lemma {:induction false} HandleConcat(s: string, p: Tables, a: seq<Event>, b: seq<Event>)
    requires Sized(s, p) && InText(s, a) && InText(s, b)
    ensures InText(s, a + b) && HandleAll(s, p, a + b) == HandleAll(s, HandleAll(s, p, a), b)
    decreases |a|
  {
    assert InText(s, a + b);
    if a == [] {
      assert a + b == b;
    } else {
      hide Handle;
      assert (a + b)[1..] == a[1..] + b;
      HandleConcat(s, Handle(s, p, a[0]), a[1..], b);
    }
  }

  lemma CommentIgnored(s: string, p: Tables, e: Event)
    requires Sized(s, p) && e.Comment?
    ensures Handle(s, p, e) == p
  {
  }

  lemma HandleOne(s: string, p: Tables, e: Event)
    requires Sized(s, p) && (e.Bracket? ==> e.at < |s|)
    ensures InText(s, [e]) && HandleAll(s, p, [e]) == Handle(s, p, e)
  {
    HandleFirst(s, p, e, []);
    assert [e] + [] == [e];
  }

  /** One turn keeps the tables sound. */
  lemma TurnSound(s: string, i: nat, prev: char, p: Tables)
    requires Sound(s, p, i) && i < |s|
    ensures var t := TurnAt(s, i, prev); InText(s, t.seen) && Sound(s, HandleAll(s, p, t.seen), t.next)
  {
    var t := TurnAt(s, i, prev);
    if OpensComment(s, i) {
      HandleOne(s, p, t.seen[0]);
      CommentIgnored(s, p, t.seen[0]);
      hide Handle, HandleAll, CommentEnd, Inverse, Nested, Stacked;
      SoundLater(s, p, i, t.next);
    } else if t.seen == [] {
      HandleNone(s, p);
      hide Handle, HandleAll, CommentEnd, StrStop, Inverse, Nested, Stacked;
      SoundLater(s, p, i, t.next);
    } else {
      HandleOne(s, p, t.seen[0]);
      hide Handle, HandleAll, CommentEnd, StrStop, Inverse, Nested, Stacked;
      HandleSound(s, p, i, prev);
    }
  }

  /** Sound tables stay sound over the whole scan. */
  lemma {:induction false} ScanSound(s: string, i: nat, prev: char, p: Tables)
    requires Sound(s, p, i)
    ensures i <= |s| && InText(s, Events(s, i, prev)) && Sound(s, HandleAll(s, p, Events(s, i, prev)), |s|)
    decreases |s| - i
  {
    EventsInText(s, i, prev);
    hide TurnAt, Handle, Inverse, Nested, Stacked, HandleAll;
    if i == |s| {
      HandleNone(s, p);
    } else {
      hide Events;
      var t := TurnAt(s, i, prev);
      EventsTurn(s, i, prev);
      TurnSound(s, i, prev, p);
      ScanSound(s, t.next, t.prev, HandleAll(s, p, t.seen));
      HandleConcat(s, p, t.seen, Events(s, t.next, t.prev));
    }
  }

  /** The tables of a text. */
  function TablesOf(s: string): Tables {
    EventsInText(s, 0, '\0');
    HandleAll(s, Empty(s), Events(s, 0, '\0'))
  }

  /** Main theorem, for every text, accepted or not: the two tables are inverse to each other, pairs join
      brackets of one kind in text order, and no two pairs cross. */
  lemma TablesSound(s: string)
    ensures Sound(s, TablesOf(s), |s|)
  {
    EmptySound(s);
    hide Sound, HandleAll, Empty;
    ScanSound(s, 0, '\0', Empty(s));
  }

  // ----- properly bracketed texts -----

  /** Brackets as the grammar nests them. */
  datatype Forest = Leaf | Node(open: Event, inner: Forest, close: Event, rest: Forest)

  function Flat(f: Forest): seq<Event> {
    match f
    case Leaf => []
    case Node(o, inner, c, rest) => [o] + Flat(inner) + [c] + Flat(rest)
  }

  /** Every node joins two brackets of one kind. */
  predicate Proper(s: string, f: Forest) {
    match f
    case Leaf => true
    case Node(o, inner, c, rest) =>
      && o.Bracket? && c.Bracket? && o.at < |s| && c.at < |s| && IsOpen(s[o.at]) && IsClose(s[c.at])
      && s[o.at] == Wanted(s[c.at]) && Proper(s, inner) && Proper(s, rest)
  }

  /** The nodes stand in text order, from `lo` and before `hi`. */
  predicate InOrder(lo: nat, f: Forest, hi: nat)
    decreases f
  {
    match f
    case Leaf => true
    case Node(o, inner, c, rest) =>
      && o.Bracket? && c.Bracket? && lo <= o.at && InOrder(o.at + 1, inner, c.at) && o.at < c.at < hi
      && InOrder(c.at + 1, rest, hi)
  }

  /** The tables join the brackets of every node. */
  predicate Joined(f: Forest, p: Tables) {
    match f
    case Leaf => true
    case Node(o, inner, c, rest) =>
      && o.Bracket? && c.Bracket? && o.at < |p.close| && c.at < |p.open|
      && p.close[o.at] == c.at && p.open[c.at] == o.at && Joined(inner, p) && Joined(rest, p)
  }

  lemma {:induction false} FlatInText(s: string, f: Forest)
    requires Proper(s, f)
    ensures InText(s, Flat(f))
  {
    match f
    case Leaf =>
    case Node(o, inner, c, rest) =>
      FlatInText(s, inner);
      FlatInText(s, rest);
  }

  /** Two tables that agree outside the places from `lo` and before `hi`. */
  predicate SameOutside(p: Tables, q: Tables, lo: nat, hi: nat) {
    && |p.close| == |q.close| && |p.open| == |q.open| && p.stack == q.stack
    && (forall i | 0 <= i < |p.close| && !(lo <= i < hi) :: p.close[i] == q.close[i])
    && (forall i | 0 <= i < |p.open| && !(lo <= i < hi) :: p.open[i] == q.open[i])
  }

  lemma {:induction false} JoinedKept(f: Forest, p: Tables, q: Tables, lo: nat, hi: nat, lo': nat, hi': nat)
    requires InOrder(lo, f, hi) && Joined(f, p) && SameOutside(p, q, lo', hi') && (hi <= lo' || hi' <= lo)
    ensures Joined(f, q)
    decreases f
  {
    match f
    case Leaf =>
    case Node(o, inner, c, rest) =>
      JoinedKept(inner, p, q, o.at + 1, c.at, lo', hi');
      JoinedKept(rest, p, q, c.at + 1, hi, lo', hi');
  }

  lemma CloseStep(s: string, p: Tables, q: Tables, o: Event, c: Event)
    requires Sized(s, p) && Sized(s, q) && o.Bracket? && c.Bracket? && o.at < |s| && c.at < |s|
    requires IsOpen(s[o.at]) && IsClose(s[c.at]) && s[o.at] == Wanted(s[c.at])
    requires q.stack == p.stack + [o.at]
    ensures Handle(s, q, c) == Tables(q.close[o.at := c.at], q.open[c.at := o.at], q.group, p.stack)
  {
    assert q.stack[|q.stack| - 1] == o.at;
    assert (p.stack + [o.at])[..|p.stack|] == p.stack;
  }

  lemma OpenStep(s: string, p: Tables, o: Event)
    requires Sized(s, p) && o.Bracket? && o.at < |s| && IsOpen(s[o.at])
    ensures var q := Handle(s, p, o); q.close == p.close && q.open == p.open && q.stack == p.stack + [o.at]
  {
  }

  /** A forest in text order is joined exactly as it stands, and the stack comes back. */
  lemma {:induction false} ForestJoined(s: string, p: Tables, f: Forest, lo: nat, hi: nat)
    requires Sized(s, p) && Proper(s, f) && InOrder(lo, f, hi)
    ensures InText(s, Flat(f))
    ensures var q := HandleAll(s, p, Flat(f)); SameOutside(p, q, lo, hi) && Joined(f, q)
    decreases f
  {
    FlatInText(s, f);
    hide Handle, HandleAll, InText;
    match f
    case Leaf =>
      HandleNone(s, p);
    case Node(o, inner, c, rest) =>
      var p1 := Handle(s, p, o);
      OpenStep(s, p, o);
      ForestJoined(s, p1, inner, o.at + 1, c.at);
      ForestJoined(s, Handle(s, HandleAll(s, p1, Flat(inner)), c), rest, c.at + 1, hi);
      NodeHandled(s, p, o, inner, c, rest);
      hide Joined, Proper, Flat;
      var p2 := HandleAll(s, p1, Flat(inner));
      CloseStep(s, p, p2, o, c);
      var p3 := Handle(s, p2, c);
      hide SameOutside;
      NodeJoined(p, p1, p2, p3, HandleAll(s, p3, Flat(rest)), f, lo, hi);
  }

  lemma NodeHandled(s: string, p: Tables, o: Event, inner: Forest, c: Event, rest: Forest)
    requires Sized(s, p) && o.Bracket? && c.Bracket? && o.at < |s| && c.at < |s| && InText(s, Flat(inner))
             && InText(s, Flat(rest))
    ensures var es := [o] + Flat(inner) + [c] + Flat(rest);
            && InText(s, es)
            && HandleAll(s, p, es) == HandleAll(s, Handle(s, HandleAll(s, Handle(s, p, o), Flat(inner)), c), Flat(rest))
  {
    hide Handle, HandleAll;
    var a, b := Flat(inner), [c] + Flat(rest);
    HandleFirst(s, HandleAll(s, Handle(s, p, o), a), c, Flat(rest));
    HandleConcat(s, Handle(s, p, o), a, b);
    HandleFirst(s, p, o, a + b);
    assert [o] + a + [c] + Flat(rest) == [o] + (a + b);
  }

  lemma NodeJoined(p: Tables, p1: Tables, p2: Tables, p3: Tables, p4: Tables, f: Forest, lo: nat, hi: nat)
    requires f.Node? && InOrder(lo, f, hi) && f.close.at < |p.close| && f.close.at < |p.open|
    requires p1.close == p.close && p1.open == p.open
    requires SameOutside(p1, p2, f.open.at + 1, f.close.at) && Joined(f.inner, p2)
    requires p3.close == p2.close[f.open.at := f.close.at] && p3.open == p2.open[f.close.at := f.open.at]
             && p3.stack == p.stack
    requires SameOutside(p3, p4, f.close.at + 1, hi) && Joined(f.rest, p4)
    ensures SameOutside(p, p4, lo, hi) && Joined(f, p4)
  {
    hide Joined, InOrder;
    OrderParts(f, lo, hi);
    var o, c := f.open.at, f.close.at;
    InnerKept(f.inner, p2, p3, o, c);
    JoinedKept(f.inner, p3, p4, o + 1, c, c + 1, hi);
    JoinedNode(f, p4);
  }

  lemma OrderParts(f: Forest, lo: nat, hi: nat)
    requires f.Node? && InOrder(lo, f, hi)
    ensures f.open.Bracket? && f.close.Bracket? && lo <= f.open.at < f.close.at < hi
            && InOrder(f.open.at + 1, f.inner, f.close.at)
  {
  }

  lemma JoinedNode(f: Forest, p: Tables)
    requires f.Node? && f.open.Bracket? && f.close.Bracket? && f.open.at < |p.close| && f.close.at < |p.open|
    requires p.close[f.open.at] == f.close.at && p.open[f.close.at] == f.open.at && Joined(f.inner, p)
             && Joined(f.rest, p)
    ensures Joined(f, p)
  {
  }

  /** Writing the outer pair leaves the inner pairs alone. */
  lemma {:induction false} InnerKept(g: Forest, p: Tables, q: Tables, o: nat, c: nat)
    requires o < |p.close| && c < |p.open| && InOrder(o + 1, g, c) && Joined(g, p)
    requires q.close == p.close[o := c] && q.open == p.open[c := o]
    ensures Joined(g, q)
  {
    InnerKeptIn(g, p, q, o, c, o + 1, c);
  }

  lemma {:induction false} InnerKeptIn(g: Forest, p: Tables, q: Tables, o: nat, c: nat, lo: nat, hi: nat)
    requires o < |p.close| && c < |p.open| && o < lo && hi <= c && InOrder(lo, g, hi) && Joined(g, p)
    requires q.close == p.close[o := c] && q.open == p.open[c := o]
    ensures Joined(g, q)
    decreases g
  {
    match g
    case Leaf =>
    case Node(x, inner, y, rest) =>
      InnerKeptIn(inner, p, q, o, c, x.at + 1, y.at);
      InnerKeptIn(rest, p, q, o, c, y.at + 1, hi);
  }

  function OnlyBrackets(es: seq<Event>): seq<Event> {
    if es == [] then [] else (if es[0].Bracket? then [es[0]] else []) + OnlyBrackets(es[1..])
  }

  lemma {:induction false} HandleBrackets(s: string, p: Tables, es: seq<Event>)
    requires Sized(s, p) && InText(s, es)
    ensures InText(s, OnlyBrackets(es)) && HandleAll(s, p, OnlyBrackets(es)) == HandleAll(s, p, es)
    decreases |es|
  {
    if es != [] {
      var q := Handle(s, p, es[0]);
      assert InText(s, es[1..]);
      HandleBrackets(s, q, es[1..]);
      assert es == [es[0]] + es[1..];
      HandleFirst(s, p, es[0], es[1..]);
      if es[0].Bracket? {
        HandleFirst(s, p, es[0], OnlyBrackets(es[1..]));
      } else {
        assert q == p;
        assert OnlyBrackets(es) == OnlyBrackets(es[1..]);
      }
      hide Handle, HandleAll, InText;
    }
  }

  /** In a text whose brackets nest as a forest, exactly the brackets of each node are paired. */
  lemma ProperTextJoined(s: string, f: Forest)
    requires Proper(s, f) && InOrder(0, f, |s|) && Flat(f) == OnlyBrackets(Events(s, 0, '\0'))
    ensures Joined(f, TablesOf(s)) && TablesOf(s).stack == []
  {
    EventsInText(s, 0, '\0');
    hide Handle, HandleAll, Events, OnlyBrackets, InText, Joined;
    HandleBrackets(s, Empty(s), Events(s, 0, '\0'));
    ForestJoined(s, Empty(s), f, 0, |s|);
  }

  // ----- the program -----

  datatype FmtComment = FmtComment(start: nat, len: nat)

  function Comments(es: seq<Event>): seq<FmtComment> {
    if es == [] then [] else (if es[0].Comment? then [FmtComment(es[0].start, es[0].len)] else []) + Comments(es[1..])
  }

  class FmtSrc {
    const close: array<int>      // `match`
    const open: array<int>       // `rmatch`
    const group: array<bool>
    var comments: seq<FmtComment>

    constructor (len: nat)
      ensures fresh(close) && fresh(open) && fresh(group) && comments == [] && close != open
      ensures close[..] == seq(len + 1, _ => -1) && open[..] == seq(len + 1, _ => -1)
              && group[..] == seq(len + 1, _ => false)
    {
      close := new int[len + 1](_ => -1);
      open := new int[len + 1](_ => -1);
      group := new bool[len + 1](_ => false);
      comments := [];
    }

    ghost function View(stack: seq<nat>): Tables
      reads this, close, open, group
    {
      Tables(close[..], open[..], group[..], stack)
    }

    /** One turn of the loop. */
    method Turn(src: string, i: nat, prev: char, stack: seq<nat>) returns (next: nat, prev': char, stack': seq<nat>)
      requires i < |src| && Sized(src, View(stack)) && close != open
      modifies this, close, open, group
      ensures var t := TurnAt(src, i, prev);
              && next == t.next && prev' == t.prev && InText(src, t.seen)
              && View(stack') == HandleAll(src, old(View(stack)), t.seen)
              && comments == old(comments) + Comments(t.seen)
    {
      hide Handle, HandleAll, Events, Comments, StrStop, CommentEnd;
      var c := src[i];
      prev', stack' := prev, stack;
      if c == '(' && i + 1 < |src| && src[i + 1] == '*' {
        next := SkipComment(src, i);
        SeenComment(src, View(stack), i, next - i);
        comments := comments + [FmtComment(i, next - i)];
      } else if c == '"' {
        SeenNothing(src, View(stack), comments);
        var j := SkipString(src, i);
        prev' := '"';
        next := if j < |src| then j + 1 else |src|;
      } else if IsWhitespace(c) {
        SeenNothing(src, View(stack), comments);
        next := i + 1;
      } else if IsOpen(c) || IsClose(c) {
        SeenBracket(src, View(stack), i, prev, comments);
        stack' := Bracket(src, i, prev, stack);
        prev' := c;
        next := i + 1;
      } else {
        SeenNothing(src, View(stack), comments);
        prev' := c;
        next := i + 1;
      }
    }

    /** A bracket: opening ones are pushed, a closing one pops to its partner. */
    method Bracket(src: string, at: nat, prev: char, stack: seq<nat>) returns (stack': seq<nat>)
      requires at < |src| && Sized(src, View(stack)) && (IsOpen(src[at]) || IsClose(src[at])) && close != open
      modifies close, open, group
      ensures View(stack') == Handle(src, old(View(stack)), Event.Bracket(at, prev))
      ensures Sized(src, View(stack'))
    {
      stack' := stack;
      if IsOpen(src[at]) {
        if src[at] == '(' { group[at] := Groups(prev); }
        stack' := stack + [at];
      } else {
        var want := if src[at] == ')' then '(' else if src[at] == '}' then '{' else '[';
        var found := false;
        while |stack'| > 0 && !found
          invariant |stack'| <= |stack| && stack' == stack[..|stack'|]
          invariant found ==> Hit(src, stack, want) && Below(src, stack, want) == |stack'|
          invariant !found ==> Hit(src, stack', want) == Hit(src, stack, want)
          invariant !found ==> Below(src, stack', want) == Below(src, stack, want)
          invariant !found ==> View(stack) == old(View(stack))
          invariant found ==> View(stack') == Handle(src, old(View(stack)), Event.Bracket(at, prev))
          decreases |stack'|, !found
        {
          var o := stack'[|stack'| - 1];
          stack' := stack'[..|stack'| - 1];
          if src[o] == want {
            close[o] := at;
            open[at] := o;
            found := true;
          }
        }
      }
    }
  }

  /** Behind a nested block comment that opens at `i`. */
  method SkipComment(src: string, i: nat) returns (j: nat)
    requires i + 1 < |src|
    ensures j == CommentEnd(src, i + 2, 1)
  {
    var depth := 1;
    j := i + 2;
    while j < |src| && depth > 0
      invariant i + 2 <= j <= |src| && 0 <= depth && CommentEnd(src, j, depth) == CommentEnd(src, i + 2, 1)
    {
      if j + 1 < |src| && src[j] == '(' && src[j + 1] == '*' { j := j + 2; depth := depth + 1; }
      else if j + 1 < |src| && src[j] == '*' && src[j + 1] == ')' { j := j + 2; depth := depth - 1; }
      else { j := j + 1; }
    }
  }

  /** The closing quote of the literal that opens at `i`, or the end of the text. */
  method SkipString(src: string, i: nat) returns (j: nat)
    requires i < |src|
    ensures j == StrStop(src, i + 1, 0)
  {
    var depth := 0;
    j := i + 1;
    var closed := false;
    while j < |src| && !closed
      invariant i + 1 <= j <= |src| && 0 <= depth && StrStop(src, j, depth) == StrStop(src, i + 1, 0)
      invariant closed ==> j == StrStop(src, i + 1, 0)
      decreases |src| - j, !closed
    {
      if depth > 0 {
        if src[j] == '(' { depth := depth + 1; } else if src[j] == ')' { depth := depth - 1; }
        j := j + 1;
      } else if src[j] == '\\' && j + 1 < |src| {
        if src[j + 1] == '(' { depth := 1; }
        j := j + 2;
      } else if src[j] == '"' {
        closed := true;
      } else {
        j := j + 1;
      }
    }
  }

  /** What is done and what is still to be seen make up the whole. */
  ghost predicate Progress(s: string, p: Tables, cs: seq<FmtComment>, i: nat, prev: char) {
    && i <= |s| && Sized(s, p) && InText(s, Events(s, i, prev))
    && HandleAll(s, p, Events(s, i, prev)) == TablesOf(s)
    && cs + Comments(Events(s, i, prev)) == Comments(Events(s, 0, '\0'))
  }

  lemma ProgressStart(s: string)
    ensures Progress(s, Empty(s), [], 0, '\0')
  {
    EventsInText(s, 0, '\0');
    hide HandleAll, Events, Comments;
  }

  lemma {:induction false} CommentsConcat(a: seq<Event>, b: seq<Event>)
    ensures Comments(a + b) == Comments(a) + Comments(b)
  {
    if a == [] { assert a + b == b; }
    else {
      var h := if a[0].Comment? then [FmtComment(a[0].start, a[0].len)] else [];
      assert (a + b)[1..] == a[1..] + b;
      assert Comments(a) == h + Comments(a[1..]) && Comments(a + b) == h + Comments(a[1..] + b);
      hide Comments;
      CommentsConcat(a[1..], b);
    }
  }

  lemma ProgressTurn(s: string, p: Tables, cs: seq<FmtComment>, i: nat, prev: char)
    requires Progress(s, p, cs, i, prev) && i < |s|
    ensures var t := TurnAt(s, i, prev);
            InText(s, t.seen) && Progress(s, HandleAll(s, p, t.seen), cs + Comments(t.seen), t.next, t.prev)
  {
    var t := TurnAt(s, i, prev);
    assert InText(s, t.seen);
    EventsTurn(s, i, prev);
    EventsInText(s, t.next, t.prev);
    hide TurnAt, HandleAll, Events, Comments, InText, TablesOf;
    var rest := Events(s, t.next, t.prev);
    HandleConcat(s, p, t.seen, rest);
    CommentsConcat(t.seen, rest);
    assert cs + Comments(t.seen) + Comments(rest) == cs + (Comments(t.seen) + Comments(rest));
  }

  lemma ProgressEnd(s: string, p: Tables, cs: seq<FmtComment>, prev: char)
    requires Progress(s, p, cs, |s|, prev)
    ensures p == TablesOf(s) && cs == Comments(Events(s, 0, '\0'))
  {
    HandleNone(s, p);
    assert Events(s, |s|, prev) == [];
    hide TablesOf, HandleAll;
    assert cs + Comments([]) == cs;
  }

  lemma SeenNothing(s: string, p: Tables, cs: seq<FmtComment>)
    requires Sized(s, p)
    ensures HandleAll(s, p, []) == p && cs + Comments([]) == cs
  {
  }

  lemma SeenComment(s: string, p: Tables, start: nat, len: nat)
    requires Sized(s, p)
    ensures HandleAll(s, p, [Event.Comment(start, len)]) == p
            && Comments([Event.Comment(start, len)]) == [FmtComment(start, len)]
  {
    HandleOne(s, p, Event.Comment(start, len));
  }

  lemma SeenBracket(s: string, p: Tables, at: nat, prev: char, cs: seq<FmtComment>)
    requires Sized(s, p) && at < |s|
    ensures HandleAll(s, p, [Event.Bracket(at, prev)]) == Handle(s, p, Event.Bracket(at, prev))
    ensures cs + Comments([Event.Bracket(at, prev)]) == cs
  {
    HandleOne(s, p, Event.Bracket(at, prev));
    hide Handle, HandleAll;
    assert Comments([Event.Bracket(at, prev)]) == [];
  }

  /** `fs_build` */
  method FsBuild(src: string) returns (fs: FmtSrc)
    ensures fresh(fs)
    ensures var p := TablesOf(src); fs.close[..] == p.close && fs.open[..] == p.open && fs.group[..] == p.group
    ensures fs.comments == Comments(Events(src, 0, '\0'))
  {
    fs := new FmtSrc(|src|);
    var stack: seq<nat> := [];
    var prev, i := '\0', 0;
    ProgressStart(src);
    hide Progress, HandleAll, Events, Comments, TablesOf, TurnAt;
    while i < |src|
      invariant 0 <= i <= |src| && Sized(src, fs.View(stack)) && Progress(src, fs.View(stack), fs.comments, i, prev)
      modifies fs, fs.close, fs.open, fs.group
    {
      ProgressTurn(src, fs.View(stack), fs.comments, i, prev);
      i, prev, stack := fs.Turn(src, i, prev, stack);
    }
    ProgressEnd(src, fs.View(stack), fs.comments, prev);
  }
}
