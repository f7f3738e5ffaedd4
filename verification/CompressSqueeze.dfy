/**
 What comes back of white space.

 The compressor writes one character for a run of white space: a line break if the run holds one, otherwise
 its first character.  A text and its squeezed form have the same code, so the squeezed form comes back
 exactly when it is in normal form.
 */
module CompressSqueeze {
  import opened Chars
  import opened CompressSpec
  import opened CompressRoundTrip

  // ----- squeezed text, from the runs alone -----

  predicate HasBreak(g: string) { exists i | 0 <= i < |g| :: g[i] == '\n' }

  /** The character that is left of a run. */
  function Left(g: string): char
    requires g != ""
  {
    if HasBreak(g) then '\n' else g[0]
  }

  /** The text with one character for each run of white space. */
  function Squeezed(s: string): (r: string)
    ensures |r| <= |s| && (r == "" <==> s == "")
    decreases |s|
  {
    if s == "" then ""
    else if !IsSpace(s[0]) then [s[0]] + Squeezed(s[1..])
    else
      var n := Run(s, 0, SpaceC);
      [Left(s[..n])] + Squeezed(s[n..])
  }

  /** A stretch without white space stays as it is. */
  lemma {:induction false} SqueezedSolid(s: string, n: nat)
    requires n <= |s| && forall k | 0 <= k < n :: !IsSpace(s[k])
    ensures Squeezed(s) == s[..n] + Squeezed(s[n..])
  {
    if n > 0 {
      SolidStep(s);
      hide IsSpace, Squeezed;
      SqueezedSolid(s[1..], n - 1);
      SolidSlices(s, n);
    } else {
      hide Squeezed;
      assert s[0..] == s;
    }
  }

  lemma SolidSlices(s: string, n: nat)
    requires 0 < n <= |s|
    ensures s[1..][n - 1..] == s[n..] && s[..n] == [s[0]] + s[1..][..n - 1]
  {}

  lemma SolidStep(s: string)
    requires s != "" && !IsSpace(s[0])
    ensures Squeezed(s) == [s[0]] + Squeezed(s[1..])
  {
    hide Left;
  }

  lemma SqueezedGap(s: string)
    requires s != "" && IsSpace(s[0])
    ensures var n := Run(s, 0, SpaceC);
            0 < n && Squeezed(s) == [Left(s[..n])] + Squeezed(s[n..])
  {
    hide Left;
    assert Run(s, 0, SpaceC) > 0;
  }

  /** The first character is the same, or white space in both. */
  lemma SqueezedHead(s: string)
    requires s != ""
    ensures Squeezed(s) != "" && if IsSpace(s[0]) then IsSpace(Squeezed(s)[0]) else Squeezed(s)[0] == s[0]
  {
    if IsSpace(s[0]) {
      var n := Run(s, 0, SpaceC);
      SqueezedGap(s);
      hide Squeezed, Run;
      LeftOf(s[..n]);
    } else {
      hide Run;
    }
  }

  lemma LeftOf(g: string)
    requires g != ""
    ensures Left(g) in g && (Left(g) == '\n' <==> '\n' in g)
  {}

  // ----- the same atoms -----

  predicate SpaceFree(cls: Class) { cls == HolderC || cls == AlnumC || cls == DigitC }

  lemma SpaceFreeIn(c: char, cls: Class)
    requires SpaceFree(cls) && IsSpace(c)
    ensures !In(c, cls)
  {}

  /** Runs of other characters end at the same place. */
  lemma SqueezedRun(s: string, i: nat, cls: Class)
    requires i <= |s| && SpaceFree(cls) && forall k | 0 <= k < i :: !IsSpace(s[k])
    ensures var e := Run(s, i, cls);
            && e <= |Squeezed(s)| && Squeezed(s)[..e] == s[..e] && Run(Squeezed(s), i, cls) == e
            && Squeezed(s)[e..] == Squeezed(s[e..])
  {
    hide IsSpace, Squeezed, In;
    var e, r := Run(s, i, cls), Squeezed(s);
    forall k | 0 <= k < e ensures !IsSpace(s[k]) {
      if k >= i && IsSpace(s[k]) { SpaceFreeIn(s[k], cls); }
    }
    SqueezedSolid(s, e);
    assert r[..e] == s[..e] && r[e..] == Squeezed(s[e..]);
    if e < |s| {
      SqueezedHead(s[e..]);
      assert r[e] == Squeezed(s[e..])[0];
      if IsSpace(s[e]) { SpaceFreeIn(r[e], cls); }
    }
    forall k | i <= k < e ensures In(r[k], cls) { assert r[k] == r[..e][k] == s[..e][k]; }
    RunIs(r, i, e, cls);
  }

  lemma HolderSame(s: string)
    ensures StartsHolder(Squeezed(s)) == StartsHolder(s)
  {
    if |s| >= 2 && s[0] == '$' && IsUpper(s[1]) {
      SqueezedRun(s, 2, HolderC);
      var e := Run(s, 2, HolderC);
      var r := Squeezed(s);
      assert r[..e][0] == s[..e][0] && r[..e][1] == s[..e][1] && r[..e][e - 1] == s[..e][e - 1];
      hide Run, Squeezed;
    } else {
      HolderNot(s);
    }
  }

  lemma HolderNot(s: string)
    requires !(|s| >= 2 && s[0] == '$' && IsUpper(s[1]))
    ensures !StartsHolder(Squeezed(s))
  {
    if s != "" {
      SqueezedHead(s);
      if s[0] == '$' {
        SolidStep(s);
        if |s| > 1 { SqueezedHead(s[1..]); }
      }
      hide Squeezed, Run;
    }
  }

  /** The squeezed text starts with the same atom, as long as before unless it is white space. */
  lemma AtomSame(s: string)
    requires s != ""
    ensures var r := Squeezed(s);
            && AtomOf(r) == AtomOf(s)
            && (!AtomOf(s).Gap? ==> Extent(r) == Extent(s) && r[..Extent(r)] == s[..Extent(s)])
            && r[Extent(r)..] == Squeezed(s[Extent(s)..])
            && (AtomOf(s).Gap? ==> Extent(r) == 1)
  {
    HolderSame(s);
    SqueezedHead(s);
    var r := Squeezed(s);
    hide StartsHolder, Left;
    if IsSpace(s[0]) && !StartsHolder(s) {
      GapSame(s);
    } else if StartsHolder(s) {
      assert s[0] == '$' by { HolderHead(s); }
      SqueezedRun(s, 1, HolderC);
      hide Squeezed, Run;
    } else if IsLetter(s[0]) {
      SqueezedRun(s, 0, AlnumC);
      hide Squeezed, Run;
    } else {
      SqueezedSolid(s, 1);
      hide Squeezed, Run;
      assert r[..1] == s[..1];
    }
  }

  lemma HolderHead(s: string)
    requires StartsHolder(s)
    ensures s[0] == '$'
  {}

  lemma GapSame(s: string)
    requires s != "" && IsSpace(s[0])
    ensures var r, n := Squeezed(s), Run(s, 0, SpaceC);
            r != "" && Run(r, 0, SpaceC) == 1 && 0 < n && r[1..] == Squeezed(s[n..]) && IsSpace(r[0])
  {
    var r, n := Squeezed(s), Run(s, 0, SpaceC);
    SqueezedGap(s);
    SqueezedHead(s);
    if n < |s| { SqueezedHead(s[n..]); }
    hide Squeezed, Left, IsSpace;
    RunIs(r, 0, 1, SpaceC);
  }

  lemma CodedSame(s: string, dict: seq<string>)
    requires s != ""
    ensures Squeezed(s) != "" && Coded(Squeezed(s), dict) == Coded(s, dict)
    ensures Grown(Squeezed(s), dict) == Grown(s, dict)
  {
    AtomSame(s);
    hide AtomOf, Extent, CodedWord, GrownWord;
    if AtomOf(s).Gap? { CollapsedSame(s); }
  }

  lemma CollapsedSame(s: string)
    requires s != "" && AtomOf(s).Gap?
    ensures var r := Squeezed(s);
            r != "" && Extent(r) == 1 && r[..1] == [Collapsed(s[..Extent(s)])] && Collapsed(r[..1]) == r[0]
  {
    AtomSame(s);
    SqueezedGap(s);
    var r, n := Squeezed(s), Run(s, 0, SpaceC);
    hide Squeezed, Run, StartsHolder;
    LeftOf(s[..n]);
    assert r[..1] == [Left(s[..n])];
  }

  /** A text and its squeezed form have the same code. */
  lemma {:induction false} SqueezedCode(s: string, dict: seq<string>)
    ensures Comp(Squeezed(s), dict) == Comp(s, dict)
    decreases |s|
  {
    if s != "" {
      CodedSame(s, dict);
      AtomSame(s);
      hide Coded, Grown, Squeezed, Extent;
      SqueezedCode(s[Extent(s)..], Grown(s, dict));
    }
  }

  /** Main theorem: for every text, and room given, decompressing the compressed text returns the squeezed text
      if and only if the squeezed text is in normal form. */
  lemma SqueezedReturns(s: string, cap: nat)
    requires cap > |s|
    ensures Decompressed(Compressed(s), cap) == Squeezed(s) <==> Normal(Squeezed(s), [], [])
  {
    SqueezedCode(s, []);
    hide Comp, Squeezed, Decompressed, Normal;
    assert Compressed(Squeezed(s)) == Compressed(s);
    RoundTrip(Squeezed(s), cap);
  }

  // ----- line breaks -----

  /** The run of white space at the start of `s` has `n` characters. */
  predicate Leads(s: string, n: nat) {
    0 < n <= |s| && (forall k | 0 <= k < n :: IsSpace(s[k])) && (n < |s| ==> !IsSpace(s[n]))
  }

  lemma LeadsGap(s: string, n: nat)
    requires Leads(s, n)
    ensures Squeezed(s) == [Left(s[..n])] + Squeezed(s[n..])
  {
    hide Squeezed, Left;
    SqueezedGap(s);
    RunIs(s, 0, n, SpaceC);
  }

  /** The text may be cut at `i` without cutting a run of white space. */
  predicate Cut(s: string, i: nat) { i <= |s| && (0 < i < |s| ==> !IsSpace(s[i - 1]) || !IsSpace(s[i])) }

  lemma InsideRun(s: string, n: nat, i: nat)
    ensures Leads(s, n) && 0 < i < n ==> !Cut(s, i)
  {
    hide IsSpace;
  }

  lemma LeadsCut(s: string, n: nat, i: nat)
    requires Leads(s, n) && Cut(s, i) && 0 < i
    ensures n <= i && Leads(s[..i], n) && Cut(s[n..], i - n)
  {
    InsideRun(s, n, i);
  }

  lemma Slices(s: string, n: nat, i: nat)
    requires n <= i <= |s|
    ensures s[..i][..n] == s[..n] && s[..i][n..] == s[n..][..i - n] && s[n..][i - n..] == s[i..]
  {}

  lemma Leading(s: string) returns (n: nat)
    requires s != "" && IsSpace(s[0])
    ensures Leads(s, n)
  {
    n := Run(s, 0, SpaceC);
  }

  lemma {:induction false} SqueezedCut(s: string, i: nat)
    requires Cut(s, i)
    ensures Squeezed(s) == Squeezed(s[..i]) + Squeezed(s[i..])
    decreases |s|
  {
    hide Squeezed, Left, Leads;
    if i == 0 {
      assert s[..0] == "" && s[0..] == s;
    } else if IsSpace(s[0]) {
      var n := Leading(s);
      LeadsCut(s, n, i);
      LeadsSome(s, n);
      Slices(s, n, i);
      LeadsGap(s, n);
      LeadsGap(s[..i], n);
      hide Cut;
      SqueezedCut(s[n..], i - n);
    } else {
      Slices(s, 1, i);
      SolidStep(s);
      SolidStep(s[..i]);
      SqueezedCut(s[1..], i - 1);
    }
  }

  lemma LeadsSome(s: string, n: nat)
    requires Leads(s, n)
    ensures 0 < n <= |s|
  {}

  /** A run of white space becomes one of its characters, a line break if and only if it holds one; the text
      around it is squeezed by itself. */
  lemma RunSqueezed(s: string, i: nat, j: nat)
    requires i < j <= |s| && Cut(s, i) && Cut(s, j) && forall k | i <= k < j :: IsSpace(s[k])
    ensures var c := Left(s[i..j]);
            && Squeezed(s) == Squeezed(s[..i]) + ([c] + Squeezed(s[j..]))
            && c in s[i..j] && (c == '\n' <==> '\n' in s[i..j])
  {
    hide Squeezed, Left, Leads;
    LeadsAt(s, i, j);
    hide Cut, IsSpace;
    SqueezedCut(s, i);
    LeadsGap(s[i..], j - i);
    var g := s[i..j];
    LeftOf(g);
  }

  lemma LeadsAt(s: string, i: nat, j: nat)
    requires i < j <= |s| && Cut(s, j) && forall k | i <= k < j :: IsSpace(s[k])
    ensures Leads(s[i..], j - i) && s[i..][..j - i] == s[i..j] && s[i..][j - i..] == s[j..]
  {}
}
