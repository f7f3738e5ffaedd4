/** The compact-to-expanded position map: `build_sourcemap` of `src/main.c` over `src/sourcemap.c`. */
module SourceMaps {
  import opened Wrappers

  const INITIAL_CAP: nat := 256

  datatype Span = Span(cline: nat, ccol: nat, eline: nat, ecol: nat, len: nat)

  datatype Pos = Pos(line: nat, col: nat)

  // ----- texts -----

  predicate IsInk(c: char) { c != ' ' && c != '\n' && c != '\r' && c != '\t' }

  /** Lines count from one, columns from zero. */
  function PosAt(s: string, i: nat): Pos
    requires i <= |s|
  {
    if i == 0 then Pos(1, 0)
    else
      var p := PosAt(s, i - 1);
      if s[i - 1] == '\n' then Pos(p.line + 1, 0) else Pos(p.line, p.col + 1)
  }

  /** The number of characters before `i` that are not white space. */
  function Rank(s: string, i: nat): nat
    requires i <= |s|
  {
    if i == 0 then 0 else Rank(s, i - 1) + if IsInk(s[i - 1]) then 1 else 0
  }

  /** The place of the `k`-th of them. */
  function Nth(s: string, k: nat, i: nat): (p: nat)
    requires i <= |s| && Rank(s, i) <= k < Rank(s, |s|)
    ensures i <= p < |s| && IsInk(s[p]) && Rank(s, p) == k
    decreases |s| - i
  {
    if IsInk(s[i]) && Rank(s, i) == k then i else Nth(s, k, i + 1)
  }

  lemma {:induction false} RankGrows(s: string, i: nat, j: nat)
    requires i <= j <= |s|
    ensures Rank(s, i) <= Rank(s, j) && (i < j && IsInk(s[i]) ==> Rank(s, i) < Rank(s, j))
    decreases j - i
  {
    if i < j { RankGrows(s, i + 1, j); assert Rank(s, i + 1) >= Rank(s, i); }
  }

  lemma RankUnique(s: string, p: nat, q: nat)
    requires p < |s| && q < |s| && IsInk(s[p]) && IsInk(s[q]) && Rank(s, p) == Rank(s, q)
    ensures p == q
  {
    if p < q { RankGrows(s, p, q); } else if q < p { RankGrows(s, q, p); }
  }

  predicate Before(p: Pos, q: Pos) { p.line < q.line || (p.line == q.line && p.col < q.col) }

  lemma {:induction false} PosGrows(s: string, i: nat, j: nat)
    requires i < j <= |s|
    ensures Before(PosAt(s, i), PosAt(s, j))
    decreases j - i
  {
    if i + 1 < j { PosGrows(s, i, j - 1); }
  }

  /** No two places share a position. */
  lemma PosUnique(s: string, p: nat, q: nat)
    requires p <= |s| && q <= |s| && PosAt(s, p) == PosAt(s, q)
    ensures p == q
  {
    if p < q { PosGrows(s, p, q); } else if q < p { PosGrows(s, q, p); }
  }

  predicate InkRun(s: string, a: nat, n: nat) {
    a + n <= |s| && forall i | a <= i < a + n :: IsInk(s[i])
  }

  lemma {:induction false} AlongRun(s: string, a: nat, n: nat)
    requires InkRun(s, a, n)
    ensures Rank(s, a + n) == Rank(s, a) + n
    ensures PosAt(s, a + n) == Pos(PosAt(s, a).line, PosAt(s, a).col + n)
  {
    if n > 0 { AlongRun(s, a, n - 1); assert IsInk(s[a + n - 1]); }
  }

  // ----- the map -----

  /** `sourcemap_lookup` from entry `i` on */
  function Find(m: seq<Span>, line: int, col: int, i: nat): Option<Pos>
    requires i <= |m|
    decreases |m| - i
  {
    if i == |m| then None
    else if m[i].cline == line && m[i].ccol <= col < m[i].ccol + m[i].len
      then Some(Pos(m[i].eline, m[i].ecol + (col - m[i].ccol)))
    else Find(m, line, col, i + 1)
  }

  /** A character other than white space stands at this position. */
  ghost predicate InkAt(s: string, line: int, col: int) {
    exists p | 0 <= p < |s| :: IsInk(s[p]) && PosAt(s, p).line == line && PosAt(s, p).col == col
  }

  /** A map is exact: a position is found exactly when a character stands there whose counterpart exists,
      and then its counterpart's position is. */
  ghost predicate Exact(m: seq<Span>, cs: string, es: string) {
    && (forall p | 0 <= p < |cs| ::
          var pos := PosAt(cs, p);
          Find(m, pos.line, pos.col, 0) ==
            if IsInk(cs[p]) && Rank(cs, p) < Rank(es, |es|) then Some(PosAt(es, Nth(es, Rank(cs, p), 0))) else None)
    && (forall line: int, col: int | Find(m, line, col, 0).Some? ::
          InkAt(cs, line, col))
  }

  /** Where an entry starts in both texts. */
  datatype Origin = Origin(a: nat, b: nat)

  /** An entry stands for two runs of the same length and rank. */
  predicate Stands(cs: string, es: string, e: Span, o: Origin) {
    && e.len > 0 && InkRun(cs, o.a, e.len) && InkRun(es, o.b, e.len) && Rank(cs, o.a) == Rank(es, o.b)
    && PosAt(cs, o.a) == Pos(e.cline, e.ccol) && PosAt(es, o.b) == Pos(e.eline, e.ecol)
  }

  predicate Within(e: Span, o: Origin, p: nat) { o.a <= p < o.a + e.len }

  /** The map so far, both texts read up to (ci, ei). */
  ghost predicate Built(m: seq<Span>, os: seq<Origin>, cs: string, es: string, ci: nat, ei: nat) {
    && ci <= |cs| && ei <= |es| && |os| == |m| && Rank(cs, ci) == Rank(es, ei)
    && (forall k | 0 <= k < |m| :: Stands(cs, es, m[k], os[k]))
    && (forall p | 0 <= p < ci && IsInk(cs[p]) :: exists k | 0 <= k < |m| :: Within(m[k], os[k], p))
  }

  predicate Claims(e: Span, pos: Pos) { e.cline == pos.line && e.ccol <= pos.col < e.ccol + e.len }

  /** An entry answers for the characters of its run with their counterparts, */
  lemma AnswersInside(cs: string, es: string, e: Span, o: Origin, p: nat)
    requires Stands(cs, es, e, o) && p < |cs| && Within(e, o, p)
    ensures Claims(e, PosAt(cs, p)) && IsInk(cs[p]) && Rank(cs, p) < Rank(es, |es|)
    ensures PosAt(es, Nth(es, Rank(cs, p), 0)) == Pos(e.eline, e.ecol + (PosAt(cs, p).col - e.ccol))
  {
    hide PosAt, Rank, Nth;
    var d := p - o.a;
    assert InkRun(cs, o.a, d) && InkRun(es, o.b, d);
    AlongRun(cs, o.a, d);
    AlongRun(es, o.b, d);
    assert IsInk(es[o.b + d]);
    RankGrows(es, o.b + d, |es|);
    RankGrows(es, 0, o.b + d);
    assert Rank(es, 0) <= Rank(cs, p);
    RankUnique(es, Nth(es, Rank(cs, p), 0), o.b + d);
  }

  /** and for no others. */
  lemma AnswersOutside(cs: string, es: string, e: Span, o: Origin, p: nat)
    requires Stands(cs, es, e, o) && p < |cs| && Claims(e, PosAt(cs, p))
    ensures Within(e, o, p)
  {
    hide PosAt, Rank;
    var d := PosAt(cs, p).col - e.ccol;
    assert InkRun(cs, o.a, d);
    AlongRun(cs, o.a, d);
    PosUnique(cs, p, o.a + d);
  }

  /** Any position an entry answers for is that of a character of its run. */
  lemma AnswersOnlyInk(cs: string, es: string, e: Span, o: Origin, line: int, col: int)
    requires Stands(cs, es, e, o) && e.cline == line && e.ccol <= col < e.ccol + e.len
    ensures InkAt(cs, line, col)
  {
    hide PosAt, Rank;
    assert InkRun(cs, o.a, col - e.ccol);
    AlongRun(cs, o.a, col - e.ccol);
    assert IsInk(cs[o.a + (col - e.ccol)]);
  }

  lemma {:induction false} FindHit(cs: string, es: string, m: seq<Span>, os: seq<Origin>, p: nat, i: nat, k: nat)
    requires |os| == |m| && (forall j | 0 <= j < |m| :: Stands(cs, es, m[j], os[j]))
    requires p < |cs| && i <= k < |m| && Within(m[k], os[k], p)
    ensures Rank(cs, p) < Rank(es, |es|) && IsInk(cs[p])
    ensures Find(m, PosAt(cs, p).line, PosAt(cs, p).col, i) == Some(PosAt(es, Nth(es, Rank(cs, p), 0)))
    decreases k - i
  {
    hide Nth, Stands, PosAt, Rank;
    AnswersInside(cs, es, m[k], os[k], p);
    if Within(m[i], os[i], p) {
      AnswersInside(cs, es, m[i], os[i], p);
    } else {
      if Claims(m[i], PosAt(cs, p)) { AnswersOutside(cs, es, m[i], os[i], p); }
      FindHit(cs, es, m, os, p, i + 1, k);
    }
  }

  lemma {:induction false} FindMiss(cs: string, es: string, m: seq<Span>, os: seq<Origin>, p: nat, i: nat)
    requires |os| == |m| && (forall j | 0 <= j < |m| :: Stands(cs, es, m[j], os[j]))
    requires p < |cs| && i <= |m| && !(IsInk(cs[p]) && Rank(cs, p) < Rank(es, |es|))
    ensures Find(m, PosAt(cs, p).line, PosAt(cs, p).col, i).None?
    decreases |m| - i
  {
    if i < |m| {
      hide Stands, PosAt, Rank;
      if Claims(m[i], PosAt(cs, p)) {
        AnswersOutside(cs, es, m[i], os[i], p);
        AnswersInside(cs, es, m[i], os[i], p);
      }
      FindMiss(cs, es, m, os, p, i + 1);
    }
  }

  lemma {:induction false} FindOnlyInk(cs: string, es: string, m: seq<Span>, os: seq<Origin>, line: int, col: int,
                                       i: nat)
    requires |os| == |m| && (forall j | 0 <= j < |m| :: Stands(cs, es, m[j], os[j]))
    requires i <= |m| && Find(m, line, col, i).Some?
    ensures InkAt(cs, line, col)
    decreases |m| - i
  {
    hide Stands, PosAt;
    if m[i].cline == line && m[i].ccol <= col < m[i].ccol + m[i].len { AnswersOnlyInk(cs, es, m[i], os[i], line, col); }
    else { FindOnlyInk(cs, es, m, os, line, col, i + 1); }
  }

  /** Once one of the texts has no more to offer, the map is exact. */
  lemma BuiltIsExact(m: seq<Span>, os: seq<Origin>, cs: string, es: string, ci: nat, ei: nat)
    requires Built(m, os, cs, es, ci, ei) && (Rank(cs, ci) == Rank(cs, |cs|) || Rank(es, ei) == Rank(es, |es|))
    ensures Exact(m, cs, es)
  {
    hide Stands, PosAt, Nth;
    forall p | 0 <= p < |cs|
      ensures var pos := PosAt(cs, p);
              Find(m, pos.line, pos.col, 0) ==
                if IsInk(cs[p]) && Rank(cs, p) < Rank(es, |es|) then Some(PosAt(es, Nth(es, Rank(cs, p), 0))) else None
    {
      if IsInk(cs[p]) && Rank(cs, p) < Rank(es, |es|) {
        if ci <= p { RankGrows(cs, ci, p); RankGrows(cs, p, |cs|); }
        var k :| 0 <= k < |m| && Within(m[k], os[k], p);
        hide Find;
        FindHit(cs, es, m, os, p, 0, k);
      } else {
        hide Find;
        FindMiss(cs, es, m, os, p, 0);
      }
    }
    forall line: int, col: int | Find(m, line, col, 0).Some?
      ensures InkAt(cs, line, col)
    {
      hide Find;
      FindOnlyInk(cs, es, m, os, line, col, 0);
    }
  }

  // ----- the program -----

  class SourceMap {
    var entries: array<Span>
    var count: nat

    ghost predicate Valid()
      reads this
    {
      count <= entries.Length
    }

    ghost function View(): seq<Span>
      requires Valid()
      reads this, entries
    {
      entries[..count]
    }

    /** `sourcemap_init` */
    constructor ()
      ensures Valid() && View() == [] && fresh(entries)
    {
      entries := new Span[INITIAL_CAP];
      count := 0;
    }

    /** `sourcemap_add`: the storage doubles when it is full */
    method Add(e: Span)
      requires Valid()
      modifies this, entries
      ensures Valid() && View() == old(View()) + [e] && (entries == old(entries) || fresh(entries))
    {
      if count >= entries.Length {
        var cap := if entries.Length > 0 then entries.Length * 2 else INITIAL_CAP;
        var grown := new Span[cap];
        var i := 0;
        while i < count
          invariant count == old(count) && entries == old(entries) && 0 <= i <= count <= entries.Length
          invariant grown[..i] == entries[..i] && entries[..count] == old(entries[..count])
        {
          grown[i] := entries[i];
          i := i + 1;
        }
        entries := grown;
      }
      entries[count] := e;
      count := count + 1;
    }

    /** `sourcemap_lookup` */
    method Lookup(line: int, col: int) returns (r: Option<Pos>)
      requires Valid()
      ensures r == Find(View(), line, col, 0)
    {
      var i := 0;
      while i < count
        invariant 0 <= i <= count && Find(View(), line, col, i) == Find(View(), line, col, 0)
      {
        var e := entries[i];
        if e.cline == line && col >= e.ccol && col < e.ccol + e.len {
          return Some(Pos(e.eline, e.ecol + (col - e.ccol)));
        }
        i := i + 1;
      }
      return None;
    }
  }

  /** Skip white space, keeping the position. */
  method SkipBlank(s: string, start: nat, at: Pos) returns (i: nat, pos: Pos)
    requires start <= |s| && at == PosAt(s, start)
    ensures start <= i <= |s| && pos == PosAt(s, i) && (i < |s| ==> IsInk(s[i])) && Rank(s, i) == Rank(s, start)
    ensures forall k | start <= k < i :: !IsInk(s[k])
  {
    i := start;
    var line, col := at.line, at.col;
    while i < |s| && (s[i] == ' ' || s[i] == '\n' || s[i] == '\r' || s[i] == '\t')
      invariant start <= i <= |s| && Pos(line, col) == PosAt(s, i) && Rank(s, i) == Rank(s, start)
      invariant forall k | start <= k < i :: !IsInk(s[k])
    {
      if s[i] == '\n' { line := line + 1; col := 0; } else { col := col + 1; }
      i := i + 1;
    }
    pos := Pos(line, col);
  }

  /** The length of the run that both texts share. */
  method SharedRun(cs: string, es: string, ci: nat, ei: nat) returns (len: nat)
    requires ci < |cs| && ei < |es| && IsInk(cs[ci]) && IsInk(es[ei])
    ensures len > 0 && InkRun(cs, ci, len) && InkRun(es, ei, len)
  {
    len := 0;
    while ci + len < |cs| && ei + len < |es| && IsInk(cs[ci + len]) && IsInk(es[ei + len])
      invariant InkRun(cs, ci, len) && InkRun(es, ei, len)
      invariant len == 0 ==> ci + len < |cs| && ei + len < |es|
      decreases |cs| - (ci + len)
    {
      len := len + 1;
    }
  }

  lemma BuiltSkip(m: seq<Span>, os: seq<Origin>, cs: string, es: string, ci: nat, ei: nat, ci': nat, ei': nat)
    requires Built(m, os, cs, es, ci, ei) && ci <= ci' <= |cs| && ei <= ei' <= |es|
    requires Rank(cs, ci') == Rank(cs, ci) && Rank(es, ei') == Rank(es, ei) && forall k | ci <= k < ci' :: !IsInk(cs[k])
    ensures Built(m, os, cs, es, ci', ei')
  {
    hide Stands, Rank, IsInk;
  }

  lemma BuiltAdd(m: seq<Span>, os: seq<Origin>, cs: string, es: string, ci: nat, ei: nat, e: Span)
    requires Built(m, os, cs, es, ci, ei) && Stands(cs, es, e, Origin(ci, ei))
    ensures Built(m + [e], os + [Origin(ci, ei)], cs, es, ci + e.len, ei + e.len)
  {
    var m', os' := m + [e], os + [Origin(ci, ei)];
    AlongRun(cs, ci, e.len);
    AlongRun(es, ei, e.len);
    hide Stands, Rank;
    forall p | 0 <= p < ci + e.len && IsInk(cs[p]) ensures exists k | 0 <= k < |m'| :: Within(m'[k], os'[k], p) {
      if p < ci {
        var k :| 0 <= k < |m| && Within(m[k], os[k], p);
        assert Within(m'[k], os'[k], p);
      } else {
        assert Within(m'[|m|], os'[|m|], p);
      }
    }
  }

  /** `build_sourcemap`, on an empty map: the map that results is exact. */
  method BuildSourcemap(sm: SourceMap, compact: string, expanded: string)
    requires sm.Valid() && sm.View() == []
    modifies sm, sm.entries
    ensures sm.Valid() && Exact(sm.View(), compact, expanded)
  {
    hide Find, Rank, PosAt, Nth, Exact, Built, Stands;
    var ci, ei := 0, 0;
    var cpos, epos := Pos(1, 0), Pos(1, 0);
    ghost var os: seq<Origin> := [];
    BuiltStart(compact, expanded);
    var more := true;
    while more && ci < |compact| && ei < |expanded|
      invariant sm.Valid() && (sm.entries == old(sm.entries) || fresh(sm.entries))
      invariant 0 <= ci <= |compact| && 0 <= ei <= |expanded| && Built(sm.View(), os, compact, expanded, ci, ei)
      invariant cpos == PosAt(compact, ci) && epos == PosAt(expanded, ei)
      invariant !more ==> ci == |compact| || ei == |expanded|
      decreases more, |compact| - ci
    {
      var ci', cpos' := SkipBlank(compact, ci, cpos);
      var ei', epos' := SkipBlank(expanded, ei, epos);
      BuiltSkip(sm.View(), os, compact, expanded, ci, ei, ci', ei');
      ci, cpos, ei, epos := ci', cpos', ei', epos';
      if ci == |compact| || ei == |expanded| {
        more := false;
      } else {
        var len := SharedRun(compact, expanded, ci, ei);
        var e := Span(cpos.line, cpos.col, epos.line, epos.col, len);
        StandsHere(sm.View(), os, compact, expanded, ci, ei, e);
        BuiltAdd(sm.View(), os, compact, expanded, ci, ei, e);
        sm.Add(e);
        os := os + [Origin(ci, ei)];
        AlongRun(compact, ci, len);
        AlongRun(expanded, ei, len);
        ci, ei := ci + len, ei + len;
        cpos, epos := Pos(cpos.line, cpos.col + len), Pos(epos.line, epos.col + len);
      }
    }
    BuiltIsExact(sm.View(), os, compact, expanded, ci, ei);
  }

  lemma BuiltStart(cs: string, es: string)
    ensures Built([], [], cs, es, 0, 0) && PosAt(cs, 0) == Pos(1, 0) && PosAt(es, 0) == Pos(1, 0)
  {
  }

  lemma StandsHere(m: seq<Span>, os: seq<Origin>, cs: string, es: string, ci: nat, ei: nat, e: Span)
    requires Built(m, os, cs, es, ci, ei) && e.len > 0 && InkRun(cs, ci, e.len) && InkRun(es, ei, e.len)
    requires PosAt(cs, ci) == Pos(e.cline, e.ccol) && PosAt(es, ei) == Pos(e.eline, e.ecol)
    ensures Stands(cs, es, e, Origin(ci, ei))
  {
    hide PosAt, Rank;
  }
}
