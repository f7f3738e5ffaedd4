/**
 The encoder and the decoder each build a dictionary from what they have seen.  Decompressing the
 compressed text gives it back exactly when it is in normal form, a condition on the text and the two
 dictionaries.
 */
module CompressRoundTrip {
  import opened Wrappers
  import opened Chars
  import opened CompressTable
  import opened Decimals
  import opened CompressSpec

  /** The text starts with a word that goes into the code as it is. */
  predicate Copied(s: string, dict: seq<string>) {
    s != "" && AtomOf(s).Term? && AbbrFor(s[..Extent(s)]).None? && Reference(dict, s[..Extent(s)]).None?
  }

  /** The length of the upper-case letters, digits and underscores at the start of the text, up to the first
      word that does not go into the code as it is. */
  function Stretch(s: string, dict: seq<string>): (n: nat)
    ensures n <= |s|
    decreases |s|
  {
    if s == "" || !In(s[0], HolderC) || (AtomOf(s).Term? && !Copied(s, dict)) then 0
    else if Run(s, 0, HolderC) < Extent(s) then Run(s, 0, HolderC)
    else Extent(s) + Stretch(s[Extent(s)..], Grown(s, dict))
  }

  /** A `$` that is no placeholder in the text and opens one in the code: the stretch behind it ends in a
      digit. */
  predicate Opens(s: string, dict: seq<string>) {
    s != "" && AtomOf(s).Mark? && s[0] == '$' && StartsHolder(s[..Opened(s, dict)])
  }

  /** The length of that placeholder. */
  function Opened(s: string, dict: seq<string>): (n: nat)
    requires s != ""
    ensures 0 < n <= |s|
  {
    1 + Stretch(s[1..], dict)
  }

  /** The first `n` characters go into the code as they are. */
  predicate CopiedThrough(s: string, dict: seq<string>, n: nat)
    decreases |s|
  {
    n == 0 || s == "" ||
    ((AtomOf(s).Term? ==> Copied(s, dict)) &&
     (Extent(s) <= n ==> CopiedThrough(s[Extent(s)..], Grown(s, dict), n - Extent(s))))
  }

  /** The text starts with a tilde, which the decoder reads up to the next white space. */
  predicate Tilde(s: string) { s != "" && s[0] == '~' }

  /** A tilde sequence that comes back: copied into the code, and no abbreviation of the table. */
  predicate TildeKept(s: string, dict: seq<string>)
  {
    CopiedThrough(s, dict, Run(s, 0, SolidC)) && Expanded(s[..Run(s, 0, SolidC)]) == s[..Run(s, 0, SolidC)]
  }

  /** The encoder's dictionary behind the atoms that make up the first `n` characters. */
  function Behind(s: string, dict: seq<string>, n: nat): seq<string>
    decreases |s|
  {
    if s == "" || n < Extent(s) then dict else Behind(s[Extent(s)..], Grown(s, dict), n - Extent(s))
  }

  /** The decoder's dictionary behind the first atom. */
  function Learnt(s: string, dict: seq<string>, known: seq<string>): seq<string>
    requires s != ""
  {
    if Copied(s, dict) then Learn(known, s[..Extent(s)]) else known
  }

  /** The first atom comes back as it is, for an encoder that has `dict` and a decoder that has `known`:
      white space of one character, a table word in lower case with white space or nothing behind it, a
      repeated word that the decoder finds under the same number, an `@` without a copied `R` behind it. */
  predicate Regular(s: string, dict: seq<string>, known: seq<string>)
    requires s != ""
  {
    var n := Extent(s);
    var t := s[..n];
    match AtomOf(s)
    case Gap => n == 1
    case Term =>
      if AbbrFor(t).Some? then RowAt(AbbrFor(t).value).word == t && (n == |s| || IsSpace(s[n]))
      else Reference(dict, t).Some? ==> Reference(dict, t).value < |known| && known[Reference(dict, t).value] == t
    case Mark => s[0] == '@' ==> !(Copied(s[1..], dict) && s[1] == 'R')
    case Holder => true
  }

  /** Normal form, along the dictionaries that the two sides build up.  They part where a `$` opens a
      placeholder and in tilde sequences: the encoder learns the words in them, the decoder does not. */
  predicate Normal(s: string, dict: seq<string>, known: seq<string>)
    decreases |s|
  {
    s == "" ||
    if Opens(s, dict) then Normal(s[Opened(s, dict)..], Behind(s, dict, Opened(s, dict)), known)
    else if Tilde(s) then
      var n := Run(s, 0, SolidC);
      0 < n && TildeKept(s, dict) && Normal(s[n..], Behind(s, dict, n), known)
    else Regular(s, dict, known) && Normal(s[Extent(s)..], Grown(s, dict), Learnt(s, dict, known))
  }

  lemma RunIs(s: string, i: nat, e: nat, cls: Class)
    requires i <= e <= |s| && (forall k | i <= k < e :: In(s[k], cls)) && (e < |s| ==> !In(s[e], cls))
    ensures Run(s, i, cls) == e
  {
    hide In;
    var f := Run(s, i, cls);
  }

  // ----- what follows an atom -----

  /** The character behind an atom does not continue it. */
  lemma BehindAtom(s: string)
    requires s != "" && Extent(s) < |s|
    ensures AtomOf(s).Holder? ==> !In(s[Extent(s)], HolderC)
    ensures AtomOf(s).Term? ==> !In(s[Extent(s)], AlnumC)
  {
  }

  /** The first character of the code, from the first character of the text. */
  lemma CompHead(s: string, dict: seq<string>)
    requires s != ""
    ensures Comp(s, dict) != ""
    ensures var c := Comp(s, dict)[0];
            if IsSpace(s[0]) then IsSpace(c)
            else if IsLetter(s[0]) then if Copied(s, dict) then c == s[0] else c == '~' || c == '@'
            else c == s[0]
  {
    CodedHead(s, dict);
    hide Coded, Grown, StartsHolder, In, Copied;
  }

  lemma CodedHead(s: string, dict: seq<string>)
    requires s != ""
    ensures Coded(s, dict) != ""
    ensures var c := Coded(s, dict)[0];
            if IsSpace(s[0]) then IsSpace(c)
            else if IsLetter(s[0]) then if Copied(s, dict) then c == s[0] else c == '~' || c == '@'
            else c == s[0]
  {
    var t := s[..Extent(s)];
    assert t[0] == s[0];
    if AtomOf(s).Term? && AbbrFor(t).Some? { RowForm(AbbrFor(t).value); }
    hide RowAt, AbbrFor, Reference, Decimal, Run;
  }

  /** What the code behind an atom starts with. */
  lemma RestHead(s: string, dict: seq<string>)
    requires s != ""
    ensures var n := Extent(s);
            var rest := Comp(s[n..], dict);
            if n == |s| then rest == ""
            else && rest != ""
                 && (IsSpace(rest[0]) <==> IsSpace(s[n]))
                 && (AtomOf(s).Holder? ==> !In(rest[0], HolderC))
                 && (AtomOf(s).Term? ==> !In(rest[0], AlnumC) && (rest[0] == s[n] || IsSpace(rest[0])))
  {
    var n := Extent(s);
    if n < |s| {
      BehindAtom(s);
      CompHead(s[n..], dict);
      assert s[n..][0] == s[n];
      hide Comp, StartsHolder, AtomOf, Extent, Copied;
    }
  }

  // ----- the decoder on one coded atom -----

  lemma HolderUnit(s: string, rest: string, dict: seq<string>)
    requires s != "" && AtomOf(s).Holder? && (rest == "" || !In(rest[0], HolderC))
    ensures var t := s[..Extent(s)]; UnitOf(t + rest, dict) == Unit(|t|, Some(t), None)
  {
    var n := Extent(s);
    var t := s[..n];
    var c := t + rest;
    assert forall k | 0 <= k < n :: c[k] == s[k];
    RunIs(s, 2, n, HolderC);
    RunIs(c, 1, n, HolderC);
    RunIs(c, 2, n, HolderC);
    assert c[..n] == t;
  }

  lemma SpaceUnit(x: char, rest: string, dict: seq<string>)
    requires IsSpace(x)
    ensures UnitOf([x] + rest, dict) == Unit(1, Some([x]), None)
  {
    assert ([x] + rest)[..1] == [x];
  }

  /** A character that the decoder does not react to. */
  lemma MarkUnit(x: char, rest: string, dict: seq<string>)
    requires !IsSpace(x) && !IsLetter(x) && x != '~' && (x == '$' ==> !StartsHolder([x] + rest))
    requires x == '@' ==> rest == "" || rest[0] != 'R'
    ensures UnitOf([x] + rest, dict) == Unit(1, Some([x]), None)
  {
    assert ([x] + rest)[..1] == [x];
  }

  lemma WordUnit(t: string, rest: string, dict: seq<string>)
    requires t != "" && IsLetter(t[0]) && (forall k | 0 <= k < |t| :: In(t[k], AlnumC))
             && (rest == "" || !In(rest[0], AlnumC))
    ensures UnitOf(t + rest, dict) == Unit(|t|, Some(t), Some(t))
  {
    var c := t + rest;
    assert forall k | 0 <= k < |t| :: c[k] == t[k];
    RunIs(c, 0, |t|, AlnumC);
    assert c[..|t|] == t;
  }

  lemma RefUnit(k: nat, rest: string, dict: seq<string>)
    requires k < |dict| && (rest == "" || !In(rest[0], AlnumC))
    ensures var a := "@R" + Decimal(k + 1); UnitOf(a + rest, dict) == Unit(|a|, Some(dict[k]), None)
  {
    var d := Decimal(k + 1);
    var a := "@R" + d;
    var c := a + rest;
    DecimalValue(k + 1);
    hide Decimal, Value;
    assert forall i | 0 <= i < |d| :: c[2 + i] == d[i];
    RunIs(c, 2, |a|, DigitC);
    assert c[2..|a|] == d;
  }

  lemma AbbrFound(i: nat)
    requires i < SIZE
    ensures Expanded(RowAt(i).abbr) == RowAt(i).word
  {
    RowForm(i);
    var a := RowAt(i).abbr;
    assert FindAbbr(a, 0).Some?;
    AbbrUnique(i, FindAbbr(a, 0).value);
    hide RowAt;
  }

  lemma AbbrUnit(i: nat, rest: string, dict: seq<string>)
    requires i < SIZE && (rest == "" || IsSpace(rest[0]))
    ensures var a := RowAt(i).abbr; UnitOf(a + rest, dict) == Unit(|a|, Some(RowAt(i).word), None)
  {
    var a := RowAt(i).abbr;
    RowForm(i);
    AbbrFound(i);
    hide RowAt, Expanded;
    var c := a + rest;
    assert forall k | 0 < k < |a| :: a[k] == a[1..][k - 1];
    assert forall k | 0 <= k < |a| :: c[k] == a[k];
    RunIs(c, 0, |a|, SolidC);
    assert c[..|a|] == a;
  }

  /** An abbreviation with something else behind it stays a tilde sequence. */
  lemma AbbrKept(i: nat, rest: string, dict: seq<string>)
    requires i < SIZE && rest != "" && !IsSpace(rest[0]) && !In(rest[0], AlnumC)
    ensures var u := UnitOf(RowAt(i).abbr + rest, dict);
            u.text.Some? && u.text.value != "" && u.text.value[0] == '~' && u.word.None?
  {
    var a := RowAt(i).abbr;
    RowForm(i);
    hide RowAt;
    var c := a + rest;
    var m := Run(c, 0, SolidC);
    assert forall k | 0 < k < |a| :: a[k] == a[1..][k - 1];
    assert forall k | 0 <= k < |a| :: c[k] == a[k];
    assert c[|a|] == rest[0];
    var x := c[..m];
    assert m > |a|;
    assert x[|a|] == rest[0];
    NotAbbr(x, |a|);
    hide Run;
    assert x[0] == '~';
  }

  lemma NotAbbr(x: string, k: nat)
    requires 0 < k < |x| && !In(x[k], AlnumC)
    ensures FindAbbr(x, 0).None?
  {
    if FindAbbr(x, 0).Some? {
      var i := FindAbbr(x, 0).value;
      RowForm(i);
    }
  }

  // ----- one step of the decoder -----

  /** A unit that fits is written and the decoder goes on. */
  lemma DecompStep(a: string, rest: string, dict: seq<string>, out: string, cap: nat, t: string, word: Option<string>)
    requires a != "" && UnitOf(a + rest, dict) == Unit(|a|, Some(t), word) && |out| + |t| + 1 <= cap
    ensures Decomp(a + rest, dict, out, cap)
            == Decomp(rest, if word.Some? then Learn(dict, word.value) else dict, out + t, cap)
  {
    hide UnitOf;
    assert (a + rest)[|a|..] == rest;
  }

  /** The decoder only appends. */
  lemma {:induction false} DecompAppends(c: string, dict: seq<string>, out: string, cap: nat)
    ensures out <= Decomp(c, dict, out, cap)
    decreases |c|
  {
    hide UnitOf;
    if c != "" {
      var u := UnitOf(c, dict);
      match u.text
      case None => DecompAppends(c[u.n..], dict, out, cap);
      case Some(t) =>
        if |out| + |t| + 1 <= cap {
          DecompAppends(c[u.n..], if u.word.Some? then Learn(dict, u.word.value) else dict, out + t, cap);
        }
    }
  }

  /** The next unit is written at the end of the output, or nothing more is. */
  lemma DecompNext(c: string, dict: seq<string>, out: string, cap: nat)
    requires c != "" && UnitOf(c, dict).text.Some? && UnitOf(c, dict).text.value != ""
    ensures var r := Decomp(c, dict, out, cap);
            r == out || (|r| > |out| && r[|out|] == UnitOf(c, dict).text.value[0])
  {
    var u := UnitOf(c, dict);
    hide UnitOf;
    var t := u.text.value;
    if |out| + |t| + 1 <= cap {
      DecompAppends(c[u.n..], if u.word.Some? then Learn(dict, u.word.value) else dict, out + t, cap);
    }
  }

  // ----- lockstep -----

  /** Dictionary entries hold letters and digits only. */
  predicate Solid(dict: seq<string>) {
    forall i | 0 <= i < |dict| :: Wordy(dict[i])
  }

  predicate Wordy(w: string) { forall k | 0 <= k < |w| :: In(w[k], AlnumC) }

  lemma LearnSolid(dict: seq<string>, w: string)
    requires Solid(dict) && Wordy(w)
    ensures Solid(Learn(dict, w))
  {}

  lemma LearntSolid(s: string, dict: seq<string>, known: seq<string>)
    requires s != "" && Solid(known)
    ensures Solid(Learnt(s, dict, known))
  {
    if Copied(s, dict) {
      TermText(s);
      hide AbbrFor, Reference, StartsHolder, Solid;
      LearnSolid(known, s[..Extent(s)]);
    }
  }

  lemma TermText(s: string)
    requires s != "" && AtomOf(s).Term?
    ensures var t := s[..Extent(s)]; t != "" && IsLetter(t[0]) && Wordy(t)
  {
  }

  lemma CompCons(s: string, dict: seq<string>)
    requires s != ""
    ensures Comp(s, dict) == Coded(s, dict) + Comp(s[Extent(s)..], Grown(s, dict))
  {}

  /** A regular atom is decoded to itself. */
  lemma RegularStep(s: string, dict: seq<string>, known: seq<string>, out: string, cap: nat)
    requires s != "" && !Tilde(s) && Regular(s, dict, known) && !Opens(s, dict) && |out| + |s| < cap
    ensures var t, rest := s[..Extent(s)], s[Extent(s)..];
            Decomp(Comp(s, dict), known, out, cap)
              == Decomp(Comp(rest, Grown(s, dict)), Learnt(s, dict, known), out + t, cap)
  {
    var n := Extent(s);
    var t := s[..n];
    var dict' := Grown(s, dict);
    var rest := Comp(s[n..], dict');
    RestHead(s, dict');
    assert t[0] == s[0];
    match AtomOf(s)
    case Holder =>
      HolderUnit(s, rest, known);
      hide UnitOf, Decomp, StartsHolder;
      DecompStep(t, rest, known, out, cap, t, None);
    case Gap =>
      SpaceUnit(s[0], rest, known);
      hide UnitOf, Decomp, StartsHolder;
      assert t == [s[0]];
      DecompStep(t, rest, known, out, cap, t, None);
    case Mark =>
      MarkStep(s, dict, known, out, cap);
    case Term =>
      TermStep(s, dict, known, out, cap);
  }

  lemma MarkStep(s: string, dict: seq<string>, known: seq<string>, out: string, cap: nat)
    requires s != "" && !Tilde(s) && Regular(s, dict, known) && !Opens(s, dict) && |out| + |s| < cap && AtomOf(s).Mark?
    ensures Decomp(Comp(s, dict), known, out, cap) == Decomp(Comp(s[1..], dict), known, out + s[..1], cap)
  {
    var x, rest := s[0], Comp(s[1..], dict);
    CompCons(s, dict);
    assert s[..1] == [x] && Comp(s, dict) == [x] + rest;
    if x == '@' && |s| > 1 {
      CompHead(s[1..], dict);
      assert s[1..][0] == s[1];
    }
    OpensIff(s, dict);
    hide Comp, Decomp, StartsHolder, Copied, Opens;
    MarkUnit(x, rest, known);
    DecompStep([x], rest, known, out, cap, [x], None);
  }

  lemma TermStep(s: string, dict: seq<string>, known: seq<string>, out: string, cap: nat)
    requires s != "" && Regular(s, dict, known) && |out| + |s| < cap && AtomOf(s).Term?
    ensures var t, rest := s[..Extent(s)], s[Extent(s)..];
            Decomp(Comp(s, dict), known, out, cap)
              == Decomp(Comp(rest, Grown(s, dict)), Learnt(s, dict, known), out + t, cap)
  {
    hide UnitOf, Decomp, StartsHolder, AbbrFor, Reference, Decimal;
    var n := Extent(s);
    var t := s[..n];
    var rest := Comp(s[n..], Grown(s, dict));
    RestHead(s, Grown(s, dict));
    TermText(s);
    if AbbrFor(t).Some? {
      var i := AbbrFor(t).value;
      RowForm(i);
      AbbrUnit(i, rest, known);
      hide RowAt;
      DecompStep(RowAt(i).abbr, rest, known, out, cap, t, None);
    } else if Reference(dict, t).Some? {
      var k := Reference(dict, t).value;
      RefUnit(k, rest, known);
      DecompStep("@R" + Decimal(k + 1), rest, known, out, cap, t, None);
    } else {
      WordUnit(t, rest, known);
      DecompStep(t, rest, known, out, cap, t, Some(t));
    }
  }

  // ----- a dollar sign that opens a placeholder in the code -----

  /** A stretch of placeholder characters in the code is a stretch of the text: either the run ends at
      the same place in both, or it ends in front of an atom that the code replaces. */
  lemma {:induction false} RunCopied(s: string, dict: seq<string>, n: nat)
    requires Run(Comp(s, dict), 0, HolderC) == n
    ensures n <= |s| && s[..n] == Comp(s, dict)[..n]
    ensures Run(s, 0, HolderC) == n || Comp(s, dict)[n..] == Comp(s[n..], Behind(s, dict, n))
    decreases |s|
  {
    if n > 0 {
      var c, e := Comp(s, dict), Extent(s);
      CompCons(s, dict);
      assert In(c[0], HolderC);
      HolderAtom(s, dict);
      if e <= n {
        RunCopiedStep(s, dict, n);
      } else {
        TermRun(s, c, n);
      }
    } else {
      assert s[0..] == s;
      hide Comp;
      if s != "" { assert Behind(s, dict, 0) == dict; }
    }
  }

  /** An atom whose code starts with a placeholder character is copied. */
  lemma HolderAtom(s: string, dict: seq<string>)
    requires s != "" && Comp(s, dict) != "" && In(Comp(s, dict)[0], HolderC)
    ensures Coded(s, dict) == s[..Extent(s)] && (AtomOf(s).Mark? || AtomOf(s).Term?)
  {
    hide Comp, Run, Decimal, RowAt, AbbrFor, Reference;
    CompHead(s, dict);
  }

  lemma TermRun(s: string, c: string, n: nat)
    requires s != "" && n < Extent(s) && Extent(s) <= |c| && c[..Extent(s)] == s[..Extent(s)]
    requires (forall i | 0 <= i < n :: In(c[i], HolderC)) && !In(c[n], HolderC)
    ensures n <= |s| && s[..n] == c[..n] && Run(s, 0, HolderC) == n
  {
    hide In, Extent;
    var e := Extent(s);
    assert forall i | 0 <= i < e :: c[i] == c[..e][i] == s[..e][i] == s[i];
    RunIs(s, 0, n, HolderC);
  }

  lemma {:induction false} RunCopiedStep(s: string, dict: seq<string>, n: nat)
    requires s != "" && Extent(s) <= n && Run(Comp(s, dict), 0, HolderC) == n && Coded(s, dict) == s[..Extent(s)]
    ensures n <= |s| && s[..n] == Comp(s, dict)[..n]
    ensures Run(s, 0, HolderC) == n || Comp(s, dict)[n..] == Comp(s[n..], Behind(s, dict, n))
    decreases |s|, 0
  {
    hide *;
    var c, e, dict' := Comp(s, dict), Extent(s), Grown(s, dict);
    var rest := Comp(s[e..], dict');
    CompCons(s, dict);
    BehindStep(s, dict, n);
    RunDropped(s[..e], rest, n);
    RunCopied(s[e..], dict', n - e);
    Spliced(s, c, e, n, rest);
    if Run(s[e..], 0, HolderC) == n - e { RunJoined(s, c, e, n); }
  }

  lemma BehindStep(s: string, dict: seq<string>, n: nat)
    requires s != "" && Extent(s) <= n
    ensures Behind(s, dict, n) == Behind(s[Extent(s)..], Grown(s, dict), n - Extent(s))
  {
    hide Extent, Grown;
  }

  lemma RunDropped(a: string, rest: string, n: nat)
    requires Run(a + rest, 0, HolderC) == n && |a| <= n
    ensures Run(rest, 0, HolderC) == n - |a|
  {
    hide In;
    assert forall i {:trigger rest[i]} | 0 <= i < |rest| :: rest[i] == (a + rest)[|a| + i];
    RunIs(rest, 0, n - |a|, HolderC);
  }

  lemma Spliced(s: string, c: string, e: nat, n: nat, rest: string)
    requires e <= n && e <= |s| && n - e <= |rest| && c == s[..e] + rest && n - e <= |s[e..]|
             && s[e..][..n - e] == rest[..n - e]
    ensures n <= |s| && s[..n] == c[..n] && c[n..] == rest[n - e..] && s[n..] == s[e..][n - e..]
  {
    assert s[..n] == s[..e] + s[e..][..n - e];
    assert c[..n] == s[..e] + rest[..n - e];
  }

  lemma RunJoined(s: string, c: string, e: nat, n: nat)
    requires e <= n <= |s| && n <= |c| && s[..n] == c[..n] && Run(c, 0, HolderC) == n
             && Run(s[e..], 0, HolderC) == n - e
    ensures Run(s, 0, HolderC) == n
  {
    hide In;
    assert forall i | 0 <= i < n :: s[i] == s[..n][i] == c[..n][i] == c[i];
    if n < |s| { assert s[e..][n - e] == s[n]; }
    RunIs(s, 0, n, HolderC);
  }

  lemma RunAppend(a: string, rest: string)
    requires forall i | 0 <= i < |a| :: In(a[i], HolderC)
    ensures Run(a + rest, 0, HolderC) == |a| + Run(rest, 0, HolderC)
  {
    hide In;
    var n := Run(rest, 0, HolderC);
    assert forall i | 0 <= i < |rest| :: (a + rest)[|a| + i] == rest[i];
    forall i | 0 <= i < |a| + n ensures In((a + rest)[i], HolderC) {
      if i >= |a| { assert (a + rest)[i] == rest[i - |a|]; }
    }
    RunIs(a + rest, 0, |a| + n, HolderC);
  }

  /** The stretch of the text is the run of placeholder characters in the code. */
  lemma {:induction false} RunStretch(s: string, dict: seq<string>)
    ensures Run(Comp(s, dict), 0, HolderC) == Stretch(s, dict)
    decreases |s|
  {
    if s != "" {
      var c, e := Comp(s, dict), Extent(s);
      CompHead(s, dict);
      if !In(s[0], HolderC) || (AtomOf(s).Term? && !Copied(s, dict)) {
        hide Comp, StartsHolder, Copied;
        assert !In(c[0], HolderC);
      } else {
        StretchAtom(s, dict);
        CompCons(s, dict);
        if Run(s, 0, HolderC) < e {
          RunWithin(s, c, e);
        } else {
          hide Comp, Coded, Grown, Extent, Copied, AtomOf;
          RunAppend(s[..e], Comp(s[e..], Grown(s, dict)));
          RunStretch(s[e..], Grown(s, dict));
        }
      }
    }
  }

  lemma StretchAtom(s: string, dict: seq<string>)
    requires s != "" && In(s[0], HolderC) && (AtomOf(s).Term? ==> Copied(s, dict))
    ensures Coded(s, dict) == s[..Extent(s)]
  {
    hide Run, Decimal, RowAt, AbbrFor, Reference;
  }

  lemma RunWithin(s: string, c: string, e: nat)
    requires e <= |s| && e <= |c| && s[..e] == c[..e] && Run(s, 0, HolderC) < e
    ensures Run(c, 0, HolderC) == Run(s, 0, HolderC)
  {
    hide In;
    assert forall i | 0 <= i < e :: c[i] == c[..e][i] == s[..e][i] == s[i];
    RunIs(c, 0, Run(s, 0, HolderC), HolderC);
  }

  /** Whether a code starts with a placeholder is seen from the run behind its first character. */
  lemma HolderPrefix(c: string, n: nat)
    requires c != "" && n == Run(c, 1, HolderC)
    ensures StartsHolder(c) <==> StartsHolder(c[..n])
  {
    if n >= 2 {
      RunIs(c, 2, n, HolderC);
      RunIs(c[..n], 2, n, HolderC);
    }
  }

  lemma OpenedIs(s: string, dict: seq<string>)
    requires s != ""
    ensures Opened(s, dict) == 1 + Stretch(s[1..], dict)
  {}

  lemma HeadJoin(s: string, tail: string, n: nat)
    requires s != "" && n <= |tail| && n < |s| && s[1..][..n] == tail[..n]
    ensures s[..n + 1] == ([s[0]] + tail)[..n + 1]
    ensures ([s[0]] + tail)[n + 1..] == tail[n..] && s[n + 1..] == s[1..][n..]
  {
    assert s[..n + 1] == [s[0]] + s[1..][..n];
    assert ([s[0]] + tail)[..n + 1] == [s[0]] + tail[..n];
  }

  /** The run behind the first character of the code is a stretch of the text. */
  lemma OpensRun(s: string, dict: seq<string>)
    requires s != "" && AtomOf(s).Mark?
    ensures var c, n := Comp(s, dict), Opened(s, dict);
            c != "" && c[0] == s[0] && Run(c, 1, HolderC) == n && n <= |c| && s[..n] == c[..n]
    ensures var c, n := Comp(s, dict), Opened(s, dict);
            Run(s[1..], 0, HolderC) == n - 1 || c[n..] == Comp(s[n..], Behind(s, dict, n))
  {
    hide *;
    var tail, k := Comp(s[1..], dict), Stretch(s[1..], dict);
    MarkCode(s, dict);
    MarkExtent(s, dict);
    OpenedIs(s, dict);
    RunStretch(s[1..], dict);
    HeadRun(s[0], tail);
    RunCopied(s[1..], dict, k);
    HeadJoin(s, tail, k);
    BehindStep(s, dict, k + 1);
  }

  /** The condition on the text says what happens in the code. */
  lemma OpensIff(s: string, dict: seq<string>)
    requires s != "" && AtomOf(s).Mark?
    ensures Opens(s, dict) <==> StartsHolder(Comp(s, dict))
    ensures Run(Comp(s, dict), 1, HolderC) == Opened(s, dict)
  {
    OpensRun(s, dict);
    var c := Comp(s, dict);
    assert StartsHolder(c) ==> c[0] == '$' by { hide Comp, Run; }
    hide Comp, StartsHolder, AtomOf, Run, Opened;
    HolderPrefix(c, Opened(s, dict));
  }

  lemma HeadRun(x: char, tail: string)
    ensures Run([x] + tail, 1, HolderC) == 1 + Run(tail, 0, HolderC)
  {
    hide In;
    var c, n := [x] + tail, Run(tail, 0, HolderC);
    assert forall i | 1 <= i < |c| :: c[i] == tail[i - 1];
    RunIs(c, 1, 1 + n, HolderC);
  }

  lemma OpensMark(s: string, dict: seq<string>)
    requires Opens(s, dict)
    ensures s != "" && AtomOf(s).Mark? && !StartsHolder(s)
  {
    hide StartsHolder, Opened;
  }

  /** The placeholder in the code is a stretch of the text, and the code goes on behind it. */
  lemma OpensCopied(s: string, dict: seq<string>)
    requires Opens(s, dict)
    ensures var c, n := Comp(s, dict), Opened(s, dict);
            c != "" && n <= |c| && c[..n] == s[..n] && c[n..] == Comp(s[n..], Behind(s, dict, n))
  {
    hide *;
    OpensMark(s, dict);
    OpensIff(s, dict);
    OpensRun(s, dict);
    NotSameHolder(s, Comp(s, dict), Opened(s, dict));
  }

  lemma NotSameHolder(s: string, c: string, n: nat)
    requires s != "" && !StartsHolder(s) && StartsHolder(c) && n == Run(c, 1, HolderC) && n <= |s| && s[..n] == c[..n]
    ensures Run(s[1..], 0, HolderC) != n - 1
  {
    hide StartsHolder, Run;
    if Run(s[1..], 0, HolderC) == n - 1 { SameHolder(s, c, n); }
  }

  /** A run that ends at the same place in both would be a placeholder of the text. */
  lemma SameHolder(s: string, c: string, n: nat)
    requires StartsHolder(c) && n == Run(c, 1, HolderC) && n <= |s| && s[..n] == c[..n]
             && Run(s[1..], 0, HolderC) == n - 1
    ensures StartsHolder(s)
  {
    assert forall i | 0 <= i < n :: s[i] == s[..n][i] == c[..n][i] == c[i];
    RunIs(c, 2, n, HolderC);
    if n < |s| { assert s[1..][n - 1] == s[n]; }
    RunIs(s, 2, n, HolderC);
  }

  lemma OpensStep(s: string, dict: seq<string>, known: seq<string>, out: string, cap: nat)
    requires Opens(s, dict) && |out| + |s| < cap
    ensures var n := Opened(s, dict);
            Decomp(Comp(s, dict), known, out, cap) == Decomp(Comp(s[n..], Behind(s, dict, n)), known, out + s[..n], cap)
  {
    var c, n := Comp(s, dict), Opened(s, dict);
    OpensIff(s, dict);
    hide Comp, Decomp, Behind, UnitOf, StartsHolder, Run, Opened;
    OpensCopied(s, dict);
    HolderRead(c, known);
    HolderStep(c, n, known, out, cap);
  }

  lemma HolderStep(c: string, n: nat, known: seq<string>, out: string, cap: nat)
    requires 0 < n <= |c| && UnitOf(c, known) == Unit(n, Some(c[..n]), None) && |out| + n < cap
    ensures Decomp(c, known, out, cap) == Decomp(c[n..], known, out + c[..n], cap)
  {
    hide Decomp, UnitOf;
    assert c == c[..n] + c[n..];
    DecompStep(c[..n], c[n..], known, out, cap, c[..n], None);
  }

  lemma HolderRead(c: string, known: seq<string>)
    requires StartsHolder(c)
    ensures UnitOf(c, known) == Unit(Run(c, 1, HolderC), Some(c[..Run(c, 1, HolderC)]), None)
  {
    hide Run;
  }

  // ----- irregular atoms do not come back -----

  function Blanks(s: string): nat {
    if s == "" then 0 else (if IsSpace(s[0]) then 1 else 0) + Blanks(s[1..])
  }

  lemma {:induction false} BlanksConcat(a: string, b: string)
    ensures Blanks(a + b) == Blanks(a) + Blanks(b)
  {
    if a == "" {
      assert a + b == b;
    } else {
      assert (a + b)[1..] == a[1..] + b;
      BlanksConcat(a[1..], b);
    }
  }

  lemma BlanksSplit(s: string, n: nat)
    requires n <= |s|
    ensures Blanks(s) == Blanks(s[..n]) + Blanks(s[n..])
  {
    assert s == s[..n] + s[n..];
    BlanksConcat(s[..n], s[n..]);
  }

  predicate NoSpace(w: string) { forall k | 0 <= k < |w| :: !IsSpace(w[k]) }

  lemma {:induction false} NoBlanks(w: string)
    requires NoSpace(w)
    ensures Blanks(w) == 0
  {
    if w != "" { NoBlanks(w[1..]); }
  }

  lemma {:induction false} AllBlanks(w: string)
    requires forall k | 0 <= k < |w| :: IsSpace(w[k])
    ensures Blanks(w) == |w|
  {
    if w != "" { AllBlanks(w[1..]); }
  }

  lemma AbbrBlanks(i: nat)
    requires i < SIZE
    ensures Blanks(RowAt(i).abbr) == 0
  {
    var a := RowAt(i).abbr;
    RowForm(i);
    hide RowAt;
    assert forall k | 0 < k < |a| :: a[k] == a[1..][k - 1];
    NoBlanks(a);
  }

  lemma RefBlanks(n: nat)
    ensures Blanks("@R" + Decimal(n)) == 0
  {
    DecimalValue(n);
    var d := Decimal(n);
    hide Decimal, Value;
    NoBlanks("@R" + d);
  }

  /** Coding an atom adds no white space. */
  lemma CodedBlanks(s: string, dict: seq<string>)
    requires s != ""
    ensures Blanks(Coded(s, dict)) <= Blanks(s[..Extent(s)])
    ensures AtomOf(s).Gap? ==> Blanks(Coded(s, dict)) == 1 && Blanks(s[..Extent(s)]) == Extent(s)
  {
    var t := s[..Extent(s)];
    hide StartsHolder, AbbrFor, Reference, Decimal, RowAt;
    if AtomOf(s).Gap? {
      AllBlanks(t);
      AllBlanks([Collapsed(t)]);
      hide Blanks;
    } else if AtomOf(s).Term? {
      hide Blanks;
      if AbbrFor(t).Some? { AbbrBlanks(AbbrFor(t).value); }
      else if Reference(dict, t).Some? { RefBlanks(Reference(dict, t).value + 1); }
    }
  }

  lemma {:induction false} CompBlanks(s: string, dict: seq<string>)
    ensures Blanks(Comp(s, dict)) <= Blanks(s)
    decreases |s|
  {
    if s != "" {
      hide Coded, Grown, Blanks, Extent, AtomOf;
      var n := Extent(s);
      var rest := Comp(s[n..], Grown(s, dict));
      assert Comp(s, dict) == Coded(s, dict) + rest;
      hide Comp;
      CodedBlanks(s, dict);
      CompBlanks(s[n..], Grown(s, dict));
      BlanksConcat(Coded(s, dict), rest);
      BlanksSplit(s, n);
    }
  }

  /** Decoding a unit adds no white space either. */
  lemma UnitBlanks(c: string, dict: seq<string>)
    requires c != "" && Solid(dict)
    ensures var u := UnitOf(c, dict);
            && (u.text.Some? ==> Blanks(u.text.value) <= Blanks(c[..u.n]))
            && (u.word.Some? ==> Wordy(u.word.value))
  {
    var u := UnitOf(c, dict);
    if StartsHolder(c) {
    } else if c[0] == '@' && |c| > 1 && c[1] == 'R' {
      hide Value, Run;
      if u.text.Some? { NoBlanks(u.text.value); }
    } else if c[0] == '~' {
      var a := c[..u.n];
      if FindAbbr(a, 0).Some? {
        RowForm(FindAbbr(a, 0).value);
        NoBlanks(RowAt(FindAbbr(a, 0).value).word);
        hide RowAt;
      }
    }
  }

  lemma {:induction false} DecompBlanks(c: string, dict: seq<string>, out: string, cap: nat)
    requires Solid(dict)
    ensures Blanks(Decomp(c, dict, out, cap)) <= Blanks(out) + Blanks(c)
    decreases |c|
  {
    if c != "" {
      var u := UnitOf(c, dict);
      UnitBlanks(c, dict);
      hide UnitOf, Blanks, Solid, Learn, Wordy;
      if u.word.Some? { LearnSolid(dict, u.word.value); }
      BlanksSplit(c, u.n);
      match u.text
      case None => DecompBlanks(c[u.n..], dict, out, cap);
      case Some(t) =>
        if |out| + |t| + 1 <= cap {
          BlanksConcat(out, t);
          DecompBlanks(c[u.n..], if u.word.Some? then Learn(dict, u.word.value) else dict, out + t, cap);
        }
    }
  }

  /** A longer run of white space is lost. */
  lemma GapFails(s: string, dict: seq<string>, known: seq<string>, out: string, cap: nat)
    requires s != "" && AtomOf(s).Gap? && Extent(s) > 1 && Solid(known)
    ensures Decomp(Comp(s, dict), known, out, cap) != out + s
  {
    var n := Extent(s);
    var rest := Comp(s[n..], Grown(s, dict));
    CompCons(s, dict);
    hide Coded, Grown, Blanks, Extent, Comp, Decomp, Solid, StartsHolder;
    CodedBlanks(s, dict);
    CompBlanks(s[n..], Grown(s, dict));
    DecompBlanks(Comp(s, dict), known, out, cap);
    BlanksConcat(Coded(s, dict), rest);
    BlanksSplit(s, n);
    BlanksConcat(out, s);
  }

  // ----- at signs -----

  /** The `@` signs before the first tilde or white space. */
  function AtHead(s: string): nat {
    if s == "" || s[0] == '~' || IsSpace(s[0]) then 0 else (if s[0] == '@' then 1 else 0) + AtHead(s[1..])
  }

  /** Those that the decoder copies. */
  function LoneHead(c: string): nat {
    if c == "" || c[0] == '~' || IsSpace(c[0]) then 0
    else (if c[0] == '@' && !(|c| > 1 && c[1] == 'R') then 1 else 0) + LoneHead(c[1..])
  }

  predicate Signless(w: string) { forall k | 0 <= k < |w| :: w[k] != '@' && w[k] != '~' && !IsSpace(w[k]) }

  lemma {:induction false} HeadPast(w: string, rest: string)
    requires Signless(w)
    ensures AtHead(w + rest) == AtHead(rest) && LoneHead(w + rest) == LoneHead(rest)
  {
    if w == "" {
      assert w + rest == rest;
    } else {
      assert (w + rest)[1..] == w[1..] + rest;
      HeadPast(w[1..], rest);
    }
  }

  lemma WordySignless(w: string)
    requires Wordy(w)
    ensures Signless(w)
  {}

  lemma RefHead(n: nat, rest: string)
    ensures LoneHead("@R" + Decimal(n) + rest) == LoneHead(rest)
  {
    var d := Decimal(n);
    DecimalValue(n);
    hide Decimal, Value;
    var c := "@R" + d + rest;
    assert c[1..] == (['R'] + d) + rest && c[1] == 'R';
    HeadPast(['R'] + d, rest);
  }

  /** The code has no more lone signs at its head than the text has signs. */
  lemma {:induction false} CompAtHead(s: string, dict: seq<string>)
    ensures LoneHead(Comp(s, dict)) <= AtHead(s)
    decreases |s|
  {
    if s != "" {
      var n, dict' := Extent(s), Grown(s, dict);
      CompHead(s, dict);
      if !IsSpace(s[0]) && s[0] != '~' {
        hide *;
        CompCons(s, dict);
        CompAtHead(s[n..], dict');
        AtomHead(s, dict, Comp(s[n..], dict'));
      } else {
        hide Comp, Copied, Extent, Grown;
      }
    }
  }

  lemma AtomHead(s: string, dict: seq<string>, rest: string)
    requires s != "" && !IsSpace(s[0]) && s[0] != '~'
    ensures LoneHead(Coded(s, dict) + rest) + AtHead(s[Extent(s)..]) <= AtHead(s) + LoneHead(rest)
  {
    var n := Extent(s);
    var t := s[..n];
    match AtomOf(s)
    case Mark =>
      hide StartsHolder, Run;
      assert t == [s[0]] && (t + rest)[1..] == rest;
    case Holder =>
      HolderHeads(s, t, rest);
    case Term =>
      TermText(s);
      TermHeads(s, t, dict, rest);
  }

  lemma HolderHeads(s: string, t: string, rest: string)
    requires s != "" && AtomOf(s).Holder? && t == s[..Extent(s)]
    ensures LoneHead(t + rest) == LoneHead(rest) && AtHead(s) == AtHead(s[Extent(s)..])
  {
    assert Signless(t);
    hide StartsHolder, Run, AtomOf, Extent;
    assert s == t + s[Extent(s)..];
    HeadPast(t, rest);
    HeadPast(t, s[Extent(s)..]);
  }

  lemma TermHeads(s: string, t: string, dict: seq<string>, rest: string)
    requires s != "" && AtomOf(s).Term? && t == s[..Extent(s)] && Wordy(t)
    ensures LoneHead(Coded(s, dict) + rest) <= LoneHead(rest) && AtHead(s) == AtHead(s[Extent(s)..])
  {
    WordySignless(t);
    assert s == t + s[Extent(s)..];
    HeadPast(t, s[Extent(s)..]);
    hide Run, StartsHolder;
    if AbbrFor(t).Some? {
      RowForm(AbbrFor(t).value);
      hide RowAt, AbbrFor, Extent;
      assert (Coded(s, dict) + rest)[0] == '~';
    } else if Reference(dict, t).Some? {
      hide AbbrFor, Reference, Decimal, Extent, AtHead, LoneHead;
      RefHead(Reference(dict, t).value + 1, rest);
    } else {
      hide AbbrFor, Reference, Extent, AtHead, LoneHead;
      HeadPast(t, rest);
    }
  }

  lemma {:induction false} LoneRest(c: string, n: nat)
    requires n <= |c| && forall k | 0 <= k < n :: c[k] != '~' && !IsSpace(c[k])
    ensures LoneHead(c[n..]) <= LoneHead(c)
    decreases n
  {
    if n == 0 {
      assert c[0..] == c;
    } else {
      assert c[n..] == c[1..][n - 1..];
      LoneRest(c[1..], n - 1);
    }
  }

  /** One unit that does not end the head writes no sign that was not a lone one. */
  lemma UnitHead(c: string, dict: seq<string>, more: string)
    requires c != "" && Solid(dict) && c[0] != '~' && !IsSpace(c[0])
    ensures var u := UnitOf(c, dict);
            if u.text.None? then LoneHead(c[u.n..]) <= LoneHead(c)
            else AtHead(u.text.value + more) + LoneHead(c[u.n..]) <= AtHead(more) + LoneHead(c)
  {
    var u := UnitOf(c, dict);
    if StartsHolder(c) || IsLetter(c[0]) {
      PlainUnit(c, dict);
      hide UnitOf, StartsHolder;
      HeadPast(u.text.value, more);
      LoneRest(c, u.n);
    } else if c[0] == '@' && |c| > 1 && c[1] == 'R' {
      RefUnitHead(c, dict, more);
    } else {
      assert u.text.value == [c[0]] && ([c[0]] + more)[1..] == more;
    }
  }

  lemma PlainUnit(c: string, dict: seq<string>)
    requires c != "" && (StartsHolder(c) || IsLetter(c[0]))
    ensures var u := UnitOf(c, dict); u.text == Some(c[..u.n]) && Signless(c[..u.n])
  {}

  lemma RefUnitHead(c: string, dict: seq<string>, more: string)
    requires |c| > 1 && Solid(dict) && c[0] == '@' && c[1] == 'R'
    ensures var u := UnitOf(c, dict);
            && LoneHead(c[u.n..]) <= LoneHead(c)
            && (u.text.Some? ==> AtHead(u.text.value + more) == AtHead(more))
  {
    var u := UnitOf(c, dict);
    assert forall k | 0 <= k < u.n :: c[k] != '~' && !IsSpace(c[k]) by { hide Value; }
    assert u.text.Some? ==> Wordy(u.text.value) by { hide Value, Run; }
    hide UnitOf;
    if u.text.Some? {
      WordySignless(u.text.value);
      HeadPast(u.text.value, more);
    }
    LoneRest(c, u.n);
  }

  lemma HeadEmpty(r: string)
    requires r == "" || r[0] == '~' || IsSpace(r[0])
    ensures AtHead(r) == 0
  {}

  /** In front of white space or the end the decoder writes white space or nothing. */
  lemma SpaceNext(c: string, dict: seq<string>, out: string, cap: nat)
    requires c == "" || IsSpace(c[0])
    ensures var r := Decomp(c, dict, out, cap); out <= r && (r == out || IsSpace(r[|out|]))
  {
    DecompAppends(c, dict, out, cap);
    if c != "" {
      assert UnitOf(c, dict).text == Some(c[..1]);
      hide UnitOf, Decomp;
      DecompNext(c, dict, out, cap);
    }
  }

  /** What the decoder does at a tilde: it writes the sequence, or a word of the table. */
  lemma TildeUnit(c: string, dict: seq<string>)
    requires c != "" && c[0] == '~'
    ensures var u := UnitOf(c, dict);
            && u.n == Run(c, 0, SolidC) && u.text == Some(Expanded(c[..u.n])) && u.word.None?
            && (u.n < |c| ==> IsSpace(c[u.n]))
            && (Expanded(c[..u.n]) == c[..u.n] || (Expanded(c[..u.n]) != "" && Wordy(Expanded(c[..u.n]))))
  {
    hide Expanded;
    ExpandedForm(c[..Run(c, 0, SolidC)]);
  }

  lemma ExpandedForm(a: string)
    ensures Expanded(a) == a || (Expanded(a) != "" && Wordy(Expanded(a)))
  {
    if |a| < 16 && FindAbbr(a, 0).Some? {
      RowForm(FindAbbr(a, 0).value);
      hide RowAt;
    }
  }

  /** Output has no more signs at its head than the code has lone ones. */
  lemma {:induction false} DecompAtHead(c: string, dict: seq<string>, out: string, cap: nat)
    requires Solid(dict)
    ensures out <= Decomp(c, dict, out, cap) && AtHead(Decomp(c, dict, out, cap)[|out|..]) <= LoneHead(c)
    decreases |c|
  {
    hide UnitOf, Solid, AtHead;
    DecompAppends(c, dict, out, cap);
    var r := Decomp(c, dict, out, cap);
    if c == "" {
      HeadEmpty(r[|out|..]);
    } else if c[0] == '~' {
      TildeAtHead(c, dict, out, cap);
    } else if IsSpace(c[0]) {
      SpaceNext(c, dict, out, cap);
      hide Decomp, LoneHead;
      HeadEmpty(r[|out|..]);
    } else {
      DecompAtStep(c, dict, out, cap);
    }
  }

  lemma TildeAtHead(c: string, dict: seq<string>, out: string, cap: nat)
    requires c != "" && c[0] == '~'
    ensures var r := Decomp(c, dict, out, cap); out <= r && AtHead(r[|out|..]) == 0
  {
    hide UnitOf, Expanded, AtHead;
    DecompAppends(c, dict, out, cap);
    TildeUnit(c, dict);
    var r, u := Decomp(c, dict, out, cap), UnitOf(c, dict);
    var t := u.text.value;
    if |out| + |t| + 1 > cap {
      HeadEmpty(r[|out|..]);
    } else {
      assert r == Decomp(c[u.n..], dict, out + t, cap);
      hide Decomp;
      SpaceNext(c[u.n..], dict, out + t, cap);
      TildeWritten(c, u.n, t, out, r);
    }
  }

  lemma TildeWritten(c: string, n: nat, t: string, out: string, r: string)
    requires 0 < n <= |c| && c[0] == '~' && (t == c[..n] || (t != "" && Wordy(t)))
    requires out + t <= r && (r == out + t || IsSpace(r[|out + t|]))
    ensures AtHead(r[|out|..]) == 0
  {
    var more := r[|out + t|..];
    assert r[|out|..] == t + more;
    if t == c[..n] {
      assert (t + more)[0] == '~';
    } else {
      WordySignless(t);
      HeadPast(t, more);
      HeadEmpty(more);
    }
  }

  lemma {:induction false} DecompAtStep(c: string, dict: seq<string>, out: string, cap: nat)
    requires c != "" && Solid(dict) && c[0] != '~' && !IsSpace(c[0])
    ensures out <= Decomp(c, dict, out, cap) && AtHead(Decomp(c, dict, out, cap)[|out|..]) <= LoneHead(c)
    decreases |c|, 0
  {
    hide UnitOf, Blanks, Solid, Learn, Wordy, AtHead, LoneHead;
    var u := UnitOf(c, dict);
    var r := Decomp(c, dict, out, cap);
    UnitBlanks(c, dict);
    DecompAppends(c, dict, out, cap);
    match u.text
    case None =>
      UnitHead(c, dict, "");
      DecompAtHead(c[u.n..], dict, out, cap);
    case Some(t) =>
      if |out| + |t| + 1 > cap {
        HeadEmpty(r[|out|..]);
      } else {
        var dict' := if u.word.Some? then Learn(dict, u.word.value) else dict;
        if u.word.Some? { LearnSolid(dict, u.word.value); }
        assert r == Decomp(c[u.n..], dict', out + t, cap);
        hide Decomp;
        DecompAtHead(c[u.n..], dict', out + t, cap);
        var more := r[|out + t|..];
        assert r[|out|..] == t + more;
        UnitHead(c, dict, more);
      }
  }

  /** Text with more signs at its head than the code has lone ones does not come back. */
  lemma SignsLost(s: string, c: string, known: seq<string>, out: string, cap: nat)
    requires Solid(known) && LoneHead(c) < AtHead(s)
    ensures Decomp(c, known, out, cap) != out + s
  {
    hide Decomp, LoneHead, AtHead, Solid;
    DecompAtHead(c, known, out, cap);
    assert (out + s)[|out|..] == s;
  }

  /** An `@` in front of a copied word with `R` is read as a reference. */
  lemma AtLost(s: string, dict: seq<string>)
    requires s != "" && s[0] == '@' && Copied(s[1..], dict) && s[1] == 'R'
    ensures LoneHead(Comp(s, dict)) < AtHead(s)
  {
    CompHead(s[1..], dict);
    CompAtHead(s[1..], dict);
    MarkCode(s, dict);
    hide Comp, Copied, StartsHolder, AtomOf, Extent, Grown, Coded;
    var c, rest := Comp(s, dict), Comp(s[1..], dict);
    assert rest[0] == s[1..][0] == 'R';
    assert c[1..] == rest && c[1] == rest[0];
  }

  lemma MarkCode(s: string, dict: seq<string>)
    requires s != "" && AtomOf(s).Mark?
    ensures Comp(s, dict) == [s[0]] + Comp(s[1..], dict)
  {
    CompCons(s, dict);
    hide Comp, StartsHolder;
    assert s[..1] == [s[0]];
  }

  lemma AtFails(s: string, dict: seq<string>, known: seq<string>, out: string, cap: nat)
    requires s != "" && Solid(known) && AtomOf(s).Mark? && !Regular(s, dict, known)
    ensures Decomp(Comp(s, dict), known, out, cap) != out + s
  {
    AtLost(s, dict);
    hide Decomp, Comp, LoneHead, AtHead, Solid;
    SignsLost(s, Comp(s, dict), known, out, cap);
  }

  // ----- tilde sequences -----

  lemma SolidRun(a: string, rest: string)
    requires NoSpace(a)
    ensures Run(a + rest, 0, SolidC) == |a| + Run(rest, 0, SolidC)
  {
    var n := Run(rest, 0, SolidC);
    assert forall i | 0 <= i < |rest| :: (a + rest)[|a| + i] == rest[i];
    forall i | 0 <= i < |a| + n ensures In((a + rest)[i], SolidC) {
      if i >= |a| { assert (a + rest)[i] == rest[i - |a|]; }
    }
    RunIs(a + rest, 0, |a| + n, SolidC);
  }

  /** Up to the next white space: the code ends its stretch where the text does, and the two stretches are
      equal exactly when everything in them is copied. */
  lemma {:induction false} SolidStretch(s: string, dict: seq<string>)
    ensures var c, n := Comp(s, dict), Run(s, 0, SolidC);
            var m := Run(c, 0, SolidC);
            && c[m..] == Comp(s[n..], Behind(s, dict, n))
            && (c[..m] == s[..n] <==> CopiedThrough(s, dict, n))
    decreases |s|, 1
  {
    if s == "" {
      assert Comp(s, dict) == "" && s[0..] == "";
    } else if IsSpace(s[0]) {
      CompHead(s, dict);
      assert Run(s, 0, SolidC) == 0
             && Run(Comp(s, dict), 0, SolidC) == 0 by { hide Comp, Copied, StartsHolder, AtomOf; }
      assert CopiedThrough(s, dict, 0);
      hide *;
      assert s[0..] == s && Comp(s, dict)[0..] == Comp(s, dict);
      BehindNone(s, dict);
    } else {
      SolidStep(s, dict);
    }
  }

  lemma BehindNone(s: string, dict: seq<string>)
    ensures Behind(s, dict, 0) == dict
  {
    hide Extent, Grown;
  }

  lemma {:induction false} SolidStep(s: string, dict: seq<string>)
    requires s != "" && !IsSpace(s[0])
    ensures var c, n := Comp(s, dict), Run(s, 0, SolidC);
            var m := Run(c, 0, SolidC);
            && c[m..] == Comp(s[n..], Behind(s, dict, n))
            && (c[..m] == s[..n] <==> CopiedThrough(s, dict, n))
    decreases |s|, 0
  {
    hide *;
    var e, dict' := Extent(s), Grown(s, dict);
    var t, a, x, rest := s[..e], Coded(s, dict), s[e..], Comp(s[e..], dict');
    var k, m := Run(x, 0, SolidC), Run(rest, 0, SolidC);
    SolidAtom(s, dict);
    CompCons(s, dict);
    assert s == t + x;
    SolidRun(t, x);
    SolidRun(a, rest);
    SolidStretch(x, dict');
    BehindStep(s, dict, e + k);
    SolidSplit(t, a, x, rest, k, m);
    CopiedStep(s, dict, e + k);
    SolidJoin(s, dict, t, a, x, rest, k, m);
  }

  lemma SolidJoin(s: string, dict: seq<string>, t: string, a: string, x: string, rest: string, k: nat, m: nat)
    requires s == t + x && Comp(s, dict) == a + rest && k <= |x| && m <= |rest|
    requires Run(s, 0, SolidC) == |t| + k && Run(Comp(s, dict), 0, SolidC) == |a| + m
    requires (a + rest)[|a| + m..] == rest[m..] && (t + x)[|t| + k..] == x[k..]
    requires rest[m..] == Comp(x[k..], Behind(s, dict, |t| + k))
    requires (a + rest)[..|a| + m] == (t + x)[..|t| + k] <==> CopiedThrough(s, dict, |t| + k)
    ensures var c, n := Comp(s, dict), Run(s, 0, SolidC);
            var m := Run(c, 0, SolidC);
            && c[m..] == Comp(s[n..], Behind(s, dict, n))
            && (c[..m] == s[..n] <==> CopiedThrough(s, dict, n))
  {
    hide *;
  }

  /** The first atom and its code hold no white space, and when they differ they differ at once. */
  lemma SolidAtom(s: string, dict: seq<string>)
    requires s != "" && !IsSpace(s[0])
    ensures var t, a := s[..Extent(s)], Coded(s, dict);
            && NoSpace(t) && NoSpace(a) && a != "" && (a == t || a[0] != t[0])
            && (a == t <==> (AtomOf(s).Term? ==> Copied(s, dict)))
  {
    CodedHead(s, dict);
    AtomNoSpace(s);
    CodedSelf(s, dict);
    CodedBlanks(s, dict);
    NoBlanks(s[..Extent(s)]);
    hide *;
    BlankFree(Coded(s, dict));
  }

  lemma AtomNoSpace(s: string)
    requires s != "" && !IsSpace(s[0])
    ensures NoSpace(s[..Extent(s)])
  {}

  lemma {:induction false} BlankFree(w: string)
    ensures Blanks(w) == 0 ==> NoSpace(w)
  {
    if w != "" {
      BlankFree(w[1..]);
      assert forall k | 0 < k < |w| :: w[k] == w[1..][k - 1];
    }
  }

  lemma CodedSelf(s: string, dict: seq<string>)
    requires s != "" && !IsSpace(s[0])
    ensures var t, a := s[..Extent(s)], Coded(s, dict);
            && (a == t || (a != "" && a[0] != t[0]))
            && (a == t <==> (AtomOf(s).Term? ==> Copied(s, dict)))
  {
    CodedHead(s, dict);
    hide Run, Decimal, RowAt, AbbrFor, Reference, StartsHolder;
  }

  lemma SolidSplit(t: string, a: string, x: string, rest: string, k: nat, m: nat)
    requires k <= |x| && m <= |rest| && t != "" && a != "" && (a == t || a[0] != t[0])
    ensures (a + rest)[..|a| + m] == (t + x)[..|t| + k] <==> a == t && rest[..m] == x[..k]
    ensures (a + rest)[|a| + m..] == rest[m..] && (t + x)[|t| + k..] == x[k..]
  {
    assert (a + rest)[..|a| + m] == a + rest[..m] && (t + x)[..|t| + k] == t + x[..k];
    if a == t {
      if a + rest[..m] == t + x[..k] {
        assert rest[..m] == (a + rest[..m])[|a|..] == (t + x[..k])[|t|..] == x[..k];
      }
    } else {
      assert (a + rest[..m])[0] == a[0] && (t + x[..k])[0] == t[0];
    }
  }

  lemma CopiedStep(s: string, dict: seq<string>, n: nat)
    requires s != "" && Extent(s) <= n
    ensures CopiedThrough(s, dict, n) <==>
            (AtomOf(s).Term? ==> Copied(s, dict)) && CopiedThrough(s[Extent(s)..], Grown(s, dict), n - Extent(s))
  {
    hide Extent, Grown, Copied, AtomOf;
  }

  /** The tilde sequence of the text as the decoder sees it. */
  lemma TildeCode(s: string, dict: seq<string>)
    requires Tilde(s)
    ensures Comp(s, dict) != "" && Comp(s, dict)[0] == '~' && Run(s, 0, SolidC) > 0
  {
    assert AtomOf(s).Mark?;
    MarkCode(s, dict);
    hide Comp;
  }

  lemma TildeStep(s: string, dict: seq<string>, known: seq<string>, out: string, cap: nat)
    requires Tilde(s) && TildeKept(s, dict) && |out| + |s| < cap
    ensures var n := Run(s, 0, SolidC);
            Decomp(Comp(s, dict), known, out, cap) == Decomp(Comp(s[n..], Behind(s, dict, n)), known, out + s[..n], cap)
  {
    var c, n := Comp(s, dict), Run(s, 0, SolidC);
    assert CopiedThrough(s, dict, n) && Expanded(s[..n]) == s[..n];
    hide *;
    TildeCode(s, dict);
    SolidStretch(s, dict);
    TildeUnit(c, known);
    HolderStep(c, Run(c, 0, SolidC), known, out, cap);
  }

  /** A tilde sequence that is not kept does not come back. */
  lemma TildeFails(s: string, dict: seq<string>, known: seq<string>, out: string, cap: nat)
    requires Tilde(s) && !TildeKept(s, dict)
    ensures Decomp(Comp(s, dict), known, out, cap) != out + s
  {
    var c, n := Comp(s, dict), Run(s, 0, SolidC);
    var m := Run(c, 0, SolidC);
    assert !(CopiedThrough(s, dict, n) && Expanded(s[..n]) == s[..n]);
    TildeCode(s, dict);
    SolidStretch(s, dict);
    hide Comp, CopiedThrough, Behind, Expanded, UnitOf;
    TildeUnit(c, known);
    var t, r := Expanded(c[..m]), Decomp(c, known, out, cap);
    if |out| + |t| + 1 <= cap {
      assert r == Decomp(c[m..], known, out + t, cap);
      hide Decomp;
      SpaceNext(c[m..], known, out + t, cap);
      TildeDiffers(s, n, c, m, t);
      StretchSame(s, t, out, r);
    }
  }

  lemma TildeDiffers(s: string, n: nat, c: string, m: nat, t: string)
    requires n == Run(s, 0, SolidC) && m == Run(c, 0, SolidC) && 0 < n && s[0] == '~'
             && (t == c[..m] || (t != "" && Wordy(t)))
    requires t == Expanded(c[..m]) && !(c[..m] == s[..n] && Expanded(s[..n]) == s[..n])
    ensures NoSpace(t) && t != s[..n]
  {
    hide Expanded;
    if t != c[..m] { assert In(t[0], AlnumC) && s[..n][0] == '~'; }
  }

  /** Output with a stretch, and white space or nothing behind it, is the text only with its own stretch. */
  lemma StretchSame(s: string, t: string, out: string, r: string)
    requires NoSpace(t) && out + t <= r && (r == out + t || IsSpace(r[|out + t|]))
    ensures r == out + s ==> t == s[..Run(s, 0, SolidC)]
  {
    if r == out + s {
      assert s == r[|out|..];
      assert t == s[..|t|] by { assert r[|out|..][..|t|] == (out + t)[|out|..]; }
      assert |t| < |s| ==> s[|t|] == r[|out + t|];
      RunIs(s, 0, |t|, SolidC);
    }
  }

  // ----- words -----

  /** Output that departs from the text never comes back to it. */
  lemma Departs(out: string, s: string, r: string, t: string)
    requires out + t <= r && |t| <= |s| && t != s[..|t|]
    ensures r != out + s
  {
    assert r[|out|..|out| + |t|] == t;
    assert (out + s)[|out|..|out| + |t|] == s[..|t|];
  }

  /** A table word in another case, or with something else behind it. */
  lemma AbbrFails(s: string, dict: seq<string>, known: seq<string>, out: string, cap: nat)
    requires s != "" && AtomOf(s).Term? && |out| + |s| < cap
    requires AbbrFor(s[..Extent(s)]).Some? && !Regular(s, dict, known)
    ensures Decomp(Comp(s, dict), known, out, cap) != out + s
  {
    var n := Extent(s);
    var t := s[..n];
    var i := AbbrFor(t).value;
    var rest := Comp(s[n..], dict);
    assert Comp(s, dict) == RowAt(i).abbr + rest;
    RestHead(s, dict);
    RowForm(i);
    assert |RowAt(i).word| == n;
    hide Comp, Decomp, StartsHolder, RowAt, AbbrFor;
    if n == |s| || IsSpace(s[n]) {
      AbbrUnit(i, rest, known);
      DecompStep(RowAt(i).abbr, rest, known, out, cap, RowAt(i).word, None);
      DecompAppends(rest, known, out + RowAt(i).word, cap);
      Departs(out, s, Decomp(Comp(s, dict), known, out, cap), RowAt(i).word);
    } else {
      AbbrKept(i, rest, known);
      hide UnitOf;
      DecompNext(RowAt(i).abbr + rest, known, out, cap);
      assert (out + s)[|out|] == s[0] != '~';
    }
  }

  /** A repeated word that the decoder does not find, or finds with another spelling. */
  lemma RefFails(s: string, dict: seq<string>, known: seq<string>, out: string, cap: nat)
    requires s != "" && Solid(known) && AtomOf(s).Term? && |out| + |s| < cap
    requires AbbrFor(s[..Extent(s)]).None? && !Regular(s, dict, known)
    ensures Decomp(Comp(s, dict), known, out, cap) != out + s
  {
    var n := Extent(s);
    var rest := Comp(s[n..], dict);
    if n < |s| && s[n] == '@' && Copied(s[n + 1..], dict) && s[n + 1] == 'R' {
      LostBehind(s, dict);
      hide Decomp, Comp, LoneHead, AtHead, Solid, Copied, AbbrFor;
      SignsLost(s, Comp(s, dict), known, out, cap);
    } else {
      BehindWord(s, dict);
      hide Copied;
      RefDeparts(s, dict, known, out, cap, rest);
    }
  }

  /** The sign behind a reference is lost. */
  lemma LostBehind(s: string, dict: seq<string>)
    requires s != "" && AtomOf(s).Term? && !Copied(s, dict) && Extent(s) < |s|
    requires var n := Extent(s); s[n] == '@' && Copied(s[n + 1..], dict) && s[n + 1] == 'R'
    ensures LoneHead(Comp(s, dict)) < AtHead(s)
  {
    var n := Extent(s);
    GrownNot(s, dict);
    TermText(s);
    hide *;
    assert s[n..][1..] == s[n + 1..] && s[n..][0] == s[n] && s[n..][1] == s[n + 1];
    AtLost(s[n..], dict);
    CompCons(s, dict);
    TermHeads(s, s[..n], dict, Comp(s[n..], dict));
  }

  lemma GrownNot(s: string, dict: seq<string>)
    requires s != "" && !Copied(s, dict)
    ensures Grown(s, dict) == dict
  {
    hide AbbrFor, Reference, StartsHolder, Run;
  }

  /** What the decoder sees behind a word. */
  ghost predicate Bounded(rest: string) {
    rest == "" || (!In(rest[0], AlnumC) && (rest[0] == '@' ==> |rest| == 1 || rest[1] != 'R'))
  }

  lemma BehindWord(s: string, dict: seq<string>)
    requires s != "" && AtomOf(s).Term?
    requires var n := Extent(s); !(n < |s| && s[n] == '@' && Copied(s[n + 1..], dict) && s[n + 1] == 'R')
    ensures var n, rest := Extent(s), Comp(s[Extent(s)..], dict);
            Bounded(rest) && (rest != "" && rest[0] == '~' ==> n < |s| && s[n] == '~')
  {
    var n := Extent(s);
    RestHead(s, dict);
    if n < |s| && s[n] == '@' {
      var u := s[n..];
      assert u[0] == '@' && u[1..] == s[n + 1..];
      CompCons(u, dict);
      assert Comp(u, dict) == "@" + Comp(s[n + 1..], dict);
      if |u| > 1 {
        CompHead(s[n + 1..], dict);
        hide Copied, Comp, StartsHolder;
      }
    }
  }

  lemma RefDeparts(s: string, dict: seq<string>, known: seq<string>, out: string, cap: nat, rest: string)
    requires s != "" && Solid(known) && AtomOf(s).Term? && |out| + |s| < cap && rest == Comp(s[Extent(s)..], dict)
             && Bounded(rest)
    requires rest != "" && rest[0] == '~' ==> Extent(s) < |s| && s[Extent(s)] == '~'
    requires AbbrFor(s[..Extent(s)]).None? && !Regular(s, dict, known)
    ensures Decomp(Comp(s, dict), known, out, cap) != out + s
  {
    var n := Extent(s);
    var t := s[..n];
    var k := Reference(dict, t).value;
    var a := "@R" + Decimal(k + 1);
    assert Comp(s, dict) == a + rest;
    if n < |s| { BehindAtom(s); }
    TermText(s);
    hide Comp, Decomp, StartsHolder, AbbrFor, Reference, Decimal, Extent;
    if k < |known| {
      RefUnit(k, rest, known);
      hide UnitOf;
      WrongEntry(s, n, a, known[k], known, out, cap, rest);
    } else {
      RefMissing(k, rest, known);
      MissingStep(a, rest, known, out, cap);
      WordLost(s, n, "", known, out, cap, rest);
      assert out + "" == out;
    }
  }

  lemma RefMissing(k: nat, rest: string, dict: seq<string>)
    requires k >= |dict| && (rest == "" || !In(rest[0], AlnumC))
    ensures var a := "@R" + Decimal(k + 1); UnitOf(a + rest, dict) == Unit(|a|, None, None)
  {
    var d := Decimal(k + 1);
    var a := "@R" + d;
    var c := a + rest;
    DecimalValue(k + 1);
    hide Decimal, Value;
    assert forall i | 0 <= i < |d| :: c[2 + i] == d[i];
    RunIs(c, 2, |a|, DigitC);
    assert c[2..|a|] == d;
  }

  lemma MissingStep(a: string, rest: string, dict: seq<string>, out: string, cap: nat)
    requires a != "" && UnitOf(a + rest, dict) == Unit(|a|, None, None)
    ensures Decomp(a + rest, dict, out, cap) == Decomp(rest, dict, out, cap)
  {
    hide UnitOf;
    assert (a + rest)[|a|..] == rest;
  }

  /** Letters and digits at the start of the text do not go beyond its first word. */
  lemma EntryShort(s: string, n: nat, d: string)
    requires n <= |s| && (n < |s| ==> !In(s[n], AlnumC)) && Wordy(d) && |d| <= |s| && d == s[..|d|]
    ensures |d| <= n
  {
    hide In;
    forall k | 0 <= k < |d| ensures In(s[k], AlnumC) { assert d[k] == s[..|d|][k]; }
  }

  /** The decoder writes an entry `d` other than the word `s[..n]`. */
  lemma WrongEntry(s: string, n: nat, a: string, d: string, known: seq<string>, out: string, cap: nat, rest: string)
    requires 0 < n <= |s| && Wordy(s[..n]) && (n < |s| ==> !In(s[n], AlnumC)) && Wordy(d) && d != s[..n]
             && Bounded(rest)
    requires rest != "" && rest[0] == '~' ==> n < |s| && s[n] == '~'
    requires a != "" && UnitOf(a + rest, known) == Unit(|a|, Some(d), None) && |out| + |s| < cap
    ensures Decomp(a + rest, known, out, cap) != out + s
  {
    hide UnitOf, In;
    if |out| + |d| + 1 > cap {
      assert Decomp(a + rest, known, out, cap) == out;
    } else {
      DecompStep(a, rest, known, out, cap, d, None);
      hide Decomp;
      WordLost(s, n, d, known, out, cap, rest);
    }
  }

  /** Behind an entry `d` other than the word `s[..n]` the text does not go on. */
  lemma WordLost(s: string, n: nat, d: string, known: seq<string>, out: string, cap: nat, rest: string)
    requires 0 < n <= |s| && Wordy(s[..n]) && (n < |s| ==> !In(s[n], AlnumC)) && Wordy(d) && d != s[..n]
             && Bounded(rest)
    requires rest != "" && rest[0] == '~' ==> n < |s| && s[n] == '~'
    ensures Decomp(rest, known, out + d, cap) != out + s
  {
    hide UnitOf, In, Decomp;
    var r := Decomp(rest, known, out + d, cap);
    DecompAppends(rest, known, out + d, cap);
    if |d| > |s| {
    } else if d != s[..|d|] {
      Departs(out, s, r, d);
    } else {
      EntryShort(s, n, d);
      assert d == s[..n][..|d|];
      assert (out + s)[|out| + |d|] == s[|d|] == s[..n][|d|];
      if rest != "" && rest[0] == '~' {
        TildeBehind(s, n, d, known, out, cap, rest);
      } else {
        NextDiffers(rest, known, out + d, cap, s[|d|]);
      }
    }
  }

  /** A tilde behind a word that was cut short: what is written is a tilde, or a word and then no tilde. */
  lemma TildeBehind(s: string, n: nat, d: string, known: seq<string>, out: string, cap: nat, rest: string)
    requires n < |s| && Wordy(s[..n]) && s[n] == '~' && |d| < n && d == s[..|d|] && rest != "" && rest[0] == '~'
    ensures Decomp(rest, known, out + d, cap) != out + s
  {
    hide UnitOf, Expanded;
    TildeUnit(rest, known);
    var u, r := UnitOf(rest, known), Decomp(rest, known, out + d, cap);
    var t := u.text.value;
    if |out + d| + |t| + 1 <= cap {
      assert r == Decomp(rest[u.n..], known, out + d + t, cap);
      hide Decomp;
      SpaceNext(rest[u.n..], known, out + d + t, cap);
      assert t == rest[..u.n] ==> t[0] == '~';
      assert In(s[..n][|d|], AlnumC);
      WordThenSpace(s, n, d, t, out, r);
    }
  }

  lemma WordThenSpace(s: string, n: nat, d: string, t: string, out: string, r: string)
    requires n < |s| && Wordy(s[..n]) && !In(s[n], AlnumC) && |d| < n && d == s[..|d|] && t != ""
    requires out + d + t <= r && (r == out + d + t || IsSpace(r[|out + d + t|]))
    ensures r == out + s ==> s[|d|] == t[0] && (Wordy(t) ==> IsSpace(s[n]))
  {
    if r == out + s {
      var w := d + t;
      assert out + d + t == out + w;
      assert s == r[|out|..];
      assert w == s[..|w|] by { assert r[|out|..][..|w|] == (out + w)[|out|..]; }
      assert s[|d|] == w[|d|];
      if Wordy(t) {
        assert |w| < |s| ==> s[|w|] == r[|out + w|];
        assert forall k | 0 <= k < n :: s[k] == s[..n][k];
        RunIs(s, 0, n, AlnumC);
        forall k | 0 <= k < |w| ensures In(s[k], AlnumC) {
          assert s[k] == w[k];
          if k < |d| { assert s[k] == s[..n][k]; } else { assert s[k] == t[k - |d|]; }
        }
        RunIs(s, 0, |w|, AlnumC);
      }
    }
  }

  /** Behind a word the decoder writes no letter or digit, unless it expands a tilde. */
  lemma NextDiffers(rest: string, dict: seq<string>, out: string, cap: nat, x: char)
    requires In(x, AlnumC) && Bounded(rest) && (rest != "" ==> rest[0] != '~')
    ensures var r := Decomp(rest, dict, out, cap); |r| == |out| || (|r| > |out| && r[|out|] != x)
  {
    if rest != "" {
      var u := UnitOf(rest, dict);
      assert u.text.Some? && u.text.value != "" && u.text.value[0] == rest[0];
      hide UnitOf, Decomp;
      DecompNext(rest, dict, out, cap);
    } else {
      assert Decomp(rest, dict, out, cap) == out;
    }
  }

  /** The first irregular atom is fatal. */
  lemma IrregularFails(s: string, dict: seq<string>, known: seq<string>, out: string, cap: nat)
    requires s != "" && Solid(known) && |out| + |s| < cap && !Regular(s, dict, known)
    ensures Decomp(Comp(s, dict), known, out, cap) != out + s
  {
    hide Comp, Decomp, Extent, Solid, AbbrFor, StartsHolder, RowAt, Copied;
    if AtomOf(s).Gap? { GapFails(s, dict, known, out, cap); }
    else if AtomOf(s).Mark? { AtFails(s, dict, known, out, cap); }
    else if AbbrFor(s[..Extent(s)]).Some? { AbbrFails(s, dict, known, out, cap); }
    else { RefFails(s, dict, known, out, cap); }
  }

  // ----- lockstep -----

  /** The decoder, started with the dictionary `known`, writes what is left behind `out`. */
  predicate Returns(s: string, dict: seq<string>, known: seq<string>, out: string, cap: nat) {
    Decomp(Comp(s, dict), known, out, cap) == out + s
  }

  lemma RegularReturns(s: string, dict: seq<string>, known: seq<string>, out: string, cap: nat)
    requires s != "" && !Tilde(s) && Regular(s, dict, known) && !Opens(s, dict) && |out| + |s| < cap
    ensures Returns(s, dict, known, out, cap) ==
            Returns(s[Extent(s)..], Grown(s, dict), Learnt(s, dict, known), out + s[..Extent(s)], cap)
  {
    hide Comp, Decomp, Regular, Grown, Extent, Learnt, Opens;
    var n := Extent(s);
    RegularStep(s, dict, known, out, cap);
    assert out + s == out + s[..n] + s[n..];
  }

  lemma OpensReturns(s: string, dict: seq<string>, known: seq<string>, out: string, cap: nat)
    requires Opens(s, dict) && |out| + |s| < cap
    ensures var n := Opened(s, dict);
            Returns(s, dict, known, out, cap) == Returns(s[n..], Behind(s, dict, n), known, out + s[..n], cap)
  {
    hide Comp, Decomp, Behind, Opened;
    var n := Opened(s, dict);
    OpensStep(s, dict, known, out, cap);
    assert out + s == out + s[..n] + s[n..];
  }

  lemma TildeReturns(s: string, dict: seq<string>, known: seq<string>, out: string, cap: nat)
    requires Tilde(s) && |out| + |s| < cap
    ensures var n := Run(s, 0, SolidC);
            && n > 0
            && Returns(s, dict, known, out, cap) ==
               (TildeKept(s, dict) && Returns(s[n..], Behind(s, dict, n), known, out + s[..n], cap))
  {
    hide Comp, Decomp, Behind, TildeKept, Run;
    TildeCode(s, dict);
    if TildeKept(s, dict) {
      var n := Run(s, 0, SolidC);
      TildeStep(s, dict, known, out, cap);
      assert out + s == out + s[..n] + s[n..];
    } else {
      TildeFails(s, dict, known, out, cap);
    }
  }

  lemma NothingReturns(dict: seq<string>, known: seq<string>, out: string, cap: nat)
    ensures Returns("", dict, known, out, cap)
  {
    assert out + "" == out;
  }

  /** An irregular atom does not open a placeholder, and is no tilde. */
  lemma IrregularOpensNot(s: string, dict: seq<string>, known: seq<string>)
    requires s != "" && !Regular(s, dict, known)
    ensures !Opens(s, dict) && !Tilde(s)
  {
    hide StartsHolder, Comp, Copied, Opened;
  }

  /** From any point on, for any two dictionaries: what is left comes back exactly when it is in normal
      form. */
  lemma {:induction false} Lockstep(s: string, dict: seq<string>, known: seq<string>, out: string, cap: nat)
    requires Solid(known) && |out| + |s| < cap
    ensures Returns(s, dict, known, out, cap) <==> Normal(s, dict, known)
    decreases |s|
  {
    hide Regular, Extent, Grown, Solid, Comp, Decomp, Learnt, Opens, Opened, Behind, TildeKept, Run;
    if s == "" {
      NothingReturns(dict, known, out, cap);
    } else if Opens(s, dict) {
      hide Returns;
      var n := Opened(s, dict);
      OpensReturns(s, dict, known, out, cap);
      Lockstep(s[n..], Behind(s, dict, n), known, out + s[..n], cap);
    } else if Tilde(s) {
      hide Returns;
      var n := Run(s, 0, SolidC);
      TildeReturns(s, dict, known, out, cap);
      Lockstep(s[n..], Behind(s, dict, n), known, out + s[..n], cap);
    } else if Regular(s, dict, known) {
      hide Returns;
      var n := Extent(s);
      RegularReturns(s, dict, known, out, cap);
      LearntSolid(s, dict, known);
      Lockstep(s[n..], Grown(s, dict), Learnt(s, dict, known), out + s[..n], cap);
    } else {
      IrregularFails(s, dict, known, out, cap);
    }
  }

  /** Main theorem: for every text, and room for it given, decompressing the compressed text returns it byte
      for byte exactly when it is in normal form. */
  lemma RoundTrip(s: string, cap: nat)
    requires cap > |s|
    ensures Decompressed(Compressed(s), cap) == s <==> Normal(s, [], [])
  {
    if s == "" {
      hide Comp, Decomp;
    } else {
      assert Solid([]);
      hide *;
      Unprefixed(s, cap);
      Lockstep(s, [], [], "", cap);
    }
  }

  /** The decoder strips the prefix that the encoder wrote. */
  lemma Unprefixed(s: string, cap: nat)
    requires s != ""
    ensures Decompressed(Compressed(s), cap) == s <==> Returns(s, [], [], "", cap)
  {
    hide Comp, Decomp;
    var c := Compressed(s);
    assert c[..|MAGIC|] == MAGIC && c[|MAGIC|..] == Comp(s, []);
    assert "" + s == s;
  }

  // ----- when text is in normal form -----

  /** Text in which words that differ only in case are spelt alike, no word is too long for the
      dictionary, table words are in lower case before white space or the end, white space comes one
      character at a time, no `@` stands before an `R`, no `$` before an upper-case letter unless it opens a
      placeholder, and there is no tilde. */
  predicate Consistent(s: string, seen: set<string>)
    decreases |s|
  {
    s == "" ||
    var n := Extent(s);
    var t := s[..n];
    match AtomOf(s)
    case Gap => n == 1 && Consistent(s[n..], seen)
    case Term =>
      && n <= MAX_WORD_LEN
      && (AbbrFor(t).Some? ==> t == Lower(t) && (n == |s| || IsSpace(s[n])))
      && (forall w | w in seen && Lower(w) == Lower(t) :: w == t)
      && Consistent(s[n..], seen + {t})
    case Mark =>
      && s[0] != '~' && (|s| > 1 && s[0] == '@' ==> s[1] != 'R')
      && (|s| > 1 && s[0] == '$' ==> !IsUpper(s[1]))
      && Consistent(s[n..], seen)
    case Holder => Consistent(s[n..], seen)
  }

  /** Consistent spelling is enough: the condition does not mention the dictionaries. */
  lemma {:induction false} ConsistentNormal(s: string, dict: seq<string>, seen: set<string>)
    requires Consistent(s, seen) && forall k | 0 <= k < |dict| :: dict[k] in seen
    ensures Normal(s, dict, dict)
    decreases |s|
  {
    if s != "" {
      var n := Extent(s);
      var t := s[..n];
      ConsistentOpensNot(s, dict, seen);
      hide StartsHolder, Opens;
      if AtomOf(s).Term? {
        assert Kept(t) == t;
        if AbbrFor(t).Some? {
          assert Lower(t) == t;
          ConsistentNormal(s[n..], dict, seen + {t});
        } else {
          ConsistentNormal(s[n..], Grown(s, dict), seen + {t});
        }
      } else {
        ConsistentNormal(s[n..], dict, seen);
      }
    }
  }

  lemma ConsistentOpensNot(s: string, dict: seq<string>, seen: set<string>)
    requires s != "" && Consistent(s, seen)
    ensures !Opens(s, dict) && !Tilde(s)
  {
    if Opens(s, dict) { OpensUpper(s, dict); }
  }

  lemma OpensUpper(s: string, dict: seq<string>)
    requires Opens(s, dict)
    ensures AtomOf(s).Mark? && |s| > 1 && s[0] == '$' && IsUpper(s[1])
  {
    assert s[..Opened(s, dict)][1] == s[1];
  }

  // ----- text that does not come back -----

  /** Two blanks in a row are enough to break the promise of a byte-identical copy. */
  lemma DoubleBlank(cap: nat)
    requires cap > 2
    ensures Decompressed(Compressed("  "), cap) != "  "
  {
    var s := "  ";
    RoundTrip(s, cap);
    assert AtomOf(s) == Gap;
    RunIs(s, 0, 2, SpaceC);
    hide Run, Grown, Comp, Decomp;
    assert !Regular(s, [], []);
    IrregularOpensNot(s, [], []);
  }

  /** An `@` directly before a new word that starts with `R` is lost, whatever comes behind. */
  lemma AtWord(s: string, cap: nat)
    requires cap > |s| && |s| > 1 && s[..2] == "@R" && Copied(s[1..], [])
    ensures Decompressed(Compressed(s), cap) != s
  {
    assert s[0] == s[..2][0] && s[1] == s[..2][1];
    RoundTrip(s, cap);
    assert !Regular(s, [], []) by { hide AbbrFor, Reference; }
    hide Regular, Comp, Decomp, Copied, Opens;
    IrregularOpensNot(s, [], []);
  }

  /** A tilde before a letter may be an abbreviation of the table: `~t` comes back as `the`. */
  lemma TildeT(cap: nat)
    requires cap > 2
    ensures Decompressed(Compressed("~t"), cap) != "~t"
  {
    var s := "~t";
    RunIs(s, 0, 2, SolidC);
    assert s[..2] == s;
    AbbrFound(0);
    assert RowAt(0) == Row("the", "~t");
    hide RowAt, Run, Comp, Decomp, Expanded, CopiedThrough, Stretch, StartsHolder;
    assert !TildeKept(s, []);
    assert !Opens(s, []) && Tilde(s);
    hide Decompressed, Compressed;
    RoundTrip(s, cap);
  }

  /** No word of the table has four letters and starts with `r` or `a`. */
  lemma NoSuchWord(i: nat)
    requires i < SIZE
    ensures |RowAt(i).word| == 4 ==> RowAt(i).word[0] != 'r' && RowAt(i).word[0] != 'a'
  {}

  lemma NotInTable(w: string)
    requires |w| == 4 && (ToLower(w[0]) == 'r' || ToLower(w[0]) == 'a')
    ensures AbbrFor(w) == None
  {
    forall i | 0 <= i < SIZE ensures RowAt(i).word != Lower(w) {
      NoSuchWord(i);
      hide RowAt;
    }
    hide RowAt;
  }

  lemma AtRabc(cap: nat)
    requires cap > 5
    ensures Decompressed(Compressed("@Rabc"), cap) != "@Rabc"
  {
    var s, w := "@Rabc", "Rabc";
    assert s[1..] == w;
    assert AtomOf(w) == Term;
    RunIs(w, 0, 4, AlnumC);
    assert w[..4] == w;
    NotInTable(w);
    hide AbbrFor, Comp, Decomp, StartsHolder, Run;
    assert Copied(w, []);
    hide Copied, Compressed, Decompressed, Reference;
    AtWord(s, cap);
  }

  lemma MarkExtent(s: string, dict: seq<string>)
    requires s != "" && AtomOf(s) == Mark
    ensures Extent(s) == 1 && Grown(s, dict) == dict
  {}
}
