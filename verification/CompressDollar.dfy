/**
 Texts with a `$` that opens a placeholder in the code only: `$v_1w` with a new word `v` in front of a known
 word `w` is coded `$v_1@R1`.  The decoder takes `$v_1` for a placeholder and does not learn `v`.  The text is
 lost when `w` is `v`, and comes back when the decoder knows `w` from before.
 */
module CompressDollar {
  import opened Wrappers
  import opened Chars
  import opened Decimals
  import opened CompressSpec
  import opened CompressRoundTrip

  /** An upper-case word of four letters that is not in the table. */
  predicate UpperWord(w: string) {
    |w| == 4 && w[0] == 'A' && IsUpper(w[1]) && IsUpper(w[2]) && IsUpper(w[3])
  }

  /** The encoder has `dict`, has not seen `v`, and will find `w` as its first entry. */
  predicate Setting(dict: seq<string>, v: string, w: string) {
    UpperWord(v) && UpperWord(w) && |dict| < MAX_DICT_WORDS && Reference(dict, v) == None
      && Reference(dict + [v], w) == Some(0)
  }

  lemma UpperForm(w: string)
    requires UpperWord(w)
    ensures Wordy(w) && AbbrFor(w) == None && Kept(w) == w
  {
    NotInTable(w);
    hide AbbrFor;
  }

  lemma TermHead(w: string, rest: string)
    requires UpperWord(w) && (rest == "" || !In(rest[0], AlnumC))
    ensures AtomOf(w + rest) == Term && Extent(w + rest) == 4 && (w + rest)[..4] == w && (w + rest)[4..] == rest
  {
    var s := w + rest;
    assert forall k | 0 <= k < 4 :: s[k] == w[k];
    RunIs(s, 0, 4, AlnumC);
  }

  /** The last word is coded as a reference. */
  lemma KnownCode(w: string, dict: seq<string>)
    requires UpperWord(w) && Reference(dict, w) == Some(0)
    ensures Comp(w, dict) == "@R1"
  {
    UpperForm(w);
    TermHead(w, "");
    hide AbbrFor, Reference, Run, In;
    assert w + "" == w;
    assert Decimal(1) == "1";
    assert Coded(w, dict) == "@R1";
    CompCons(w, dict);
    assert Comp("", Grown(w, dict)) == "";
  }

  lemma MarkBefore(x: char, rest: string, dict: seq<string>, n: nat)
    requires x == '_' || x == '1'
    ensures Comp([x] + rest, dict) == [x] + Comp(rest, dict) && Behind([x] + rest, dict, n + 1) == Behind(rest, dict, n)
  {
    var s := [x] + rest;
    assert AtomOf(s) == Mark && s[1..] == rest;
    hide Comp, Behind, StartsHolder, Run;
    MarkCode(s, dict);
    MarkExtent(s, dict);
    BehindStep(s, dict, n + 1);
  }

  lemma MarksCode(w: string, dict: seq<string>)
    requires UpperWord(w) && Reference(dict, w) == Some(0)
    ensures Comp("_1" + w, dict) == "_1" + "@R1" && Behind("_1" + w, dict, 2) == dict
  {
    assert Behind(w, dict, 0) == dict;
    hide *;
    KnownCode(w, dict);
    MarkBefore('1', w, dict, 0);
    MarkBefore('_', ['1'] + w, dict, 1);
    Marked(w);
    Marked("@R1");
  }

  lemma Marked(w: string)
    ensures ['_'] + (['1'] + w) == "_1" + w
  {}

  /** The code of `v_1w`, and the encoder's dictionary in front of `w`. */
  lemma TailCode(dict: seq<string>, v: string, w: string)
    requires Setting(dict, v, w)
    ensures Comp(v + ("_1" + w), dict) == v + ("_1" + "@R1") && Behind(v + ("_1" + w), dict, 6) == dict + [v]
  {
    var s, mid := v + ("_1" + w), "_1" + w;
    TermHead(v, mid);
    FirstSeen(s, dict, v);
    assert UpperWord(w) && Reference(dict + [v], w) == Some(0) by { hide Reference; }
    hide *;
    MarksCode(w, dict + [v]);
    CompCons(s, dict);
    BehindStep(s, dict, 6);
  }

  lemma FirstSeen(s: string, dict: seq<string>, v: string)
    requires UpperWord(v) && Reference(dict, v) == None && |dict| < MAX_DICT_WORDS
    requires s != "" && AtomOf(s) == Term && Extent(s) == 4 && s[..4] == v
    ensures Grown(s, dict) == dict + [v] && Coded(s, dict) == v && Copied(s, dict)
  {
    UpperForm(v);
    hide AbbrFor, Reference, Run, AtomOf, Extent;
  }

  function Text(v: string, w: string): string { "$" + v + "_1" + w }

  lemma TextShape(v: string, w: string)
    requires UpperWord(v) && UpperWord(w)
    ensures var s := Text(v, w);
            |s| == 11 && s[0] == '$' && AtomOf(s) == Mark && s[1..] == v + ("_1" + w) && s[7..] == w
  {
    var s := Text(v, w);
    assert s[1] == v[0] && s[2] == v[1] && s[3] == v[2] && s[4] == v[3];
    assert s[7] == w[0] && s[8] == w[1] && s[9] == w[2] && s[10] == w[3];
    RunIs(s, 2, 11, HolderC);
  }

  lemma HolderCode(v: string)
    requires UpperWord(v)
    ensures var c := "$" + v + "_1@R1"; StartsHolder(c) && Run(c, 1, HolderC) == 7
  {
    var c := "$" + v + "_1@R1";
    assert c[1] == v[0] && c[2] == v[1] && c[3] == v[2] && c[4] == v[3];
    RunIs(c, 1, 7, HolderC);
    RunIs(c, 2, 7, HolderC);
  }

  lemma Dollared(v: string)
    ensures ['$'] + (v + ("_1" + "@R1")) == "$" + v + "_1@R1"
  {}

  lemma DollarCode(dict: seq<string>, v: string, w: string)
    requires Setting(dict, v, w)
    ensures var s := Text(v, w);
            && s != "" && AtomOf(s) == Mark && StartsHolder(Comp(s, dict)) && Run(Comp(s, dict), 1, HolderC) == 7
            && Behind(s, dict, 7) == dict + [v]
  {
    assert UpperWord(v) && UpperWord(w) by { hide Reference, UpperWord; }
    hide *;
    var s := Text(v, w);
    TextShape(v, w);
    TailCode(dict, v, w);
    HolderCode(v);
    MarkCode(s, dict);
    Dollared(v);
    MarkExtent(s, dict);
    BehindStep(s, dict, 7);
  }

  /** What is left of `$v_1w` behind the placeholder is `w`. */
  lemma DollarNormal(dict: seq<string>, v: string, w: string, known: seq<string>)
    requires Setting(dict, v, w)
    ensures Normal(Text(v, w), dict, known) <==> Normal(w, dict + [v], known)
  {
    var s := Text(v, w);
    assert s[7..] == w && |s| == 11 by { TextShape(v, w); }
    hide Comp, Run, StartsHolder, Behind, AtomOf, Text, Reference, Regular, Grown, Learnt, Extent, Opens, Opened,
      Setting;
    DollarOpens(dict, v, w);
    DollarCode(dict, v, w);
  }

  /** The decoder finds the word exactly when its first entry is that word. */
  lemma LastNormal(w: string, dict: seq<string>, known: seq<string>)
    requires UpperWord(w) && Reference(dict, w) == Some(0)
    ensures Normal(w, dict, known) <==> known != [] && known[0] == w
  {
    UpperForm(w);
    TermHead(w, "");
    assert w + "" == w;
    assert Normal("", Grown(w, dict), Learnt(w, dict, known));
    assert w[4..] == "";
    hide Comp, Behind, Run, AbbrFor, Reference;
    assert !Opens(w, dict);
    assert Regular(w, dict, known) <==> known != [] && known[0] == w;
  }

  /** `$w_1w` does not come back. */
  lemma DollarTwice(w: string, cap: nat)
    requires UpperWord(w) && cap > 11
    ensures Decompressed(Compressed(Text(w, w)), cap) != Text(w, w)
  {
    assert Setting([], w, w) by { UpperForm(w); assert [] + [w] == [w]; }
    assert Reference([] + [w], w) == Some(0);
    hide *;
    TextShape(w, w);
    DollarNormal([], w, w, []);
    LastNormal(w, [] + [w], []);
    RoundTrip(Text(w, w), cap);
  }

  lemma DollarAbcd(cap: nat)
    requires cap > 11
    ensures Decompressed(Compressed("$ABCD_1ABCD"), cap) != "$ABCD_1ABCD"
  {
    assert "$" + "ABCD" + "_1" + "ABCD" == "$ABCD_1ABCD";
    hide Compressed, Decompressed;
    DollarTwice("ABCD", cap);
  }

  // ----- a word known from before -----

  lemma WordFirst(w: string, rest: string)
    requires UpperWord(w) && rest != "" && !IsSpace(rest[0]) && !In(rest[0], AlnumC)
    ensures var s := w + (" " + rest); Normal(s, [], []) <==> Normal(" " + rest, [w], [w])
  {
    var s := w + (" " + rest);
    TermHead(w, " " + rest);
    assert Reference([], w) == None;
    FirstSeen(s, [], w);
    UpperForm(w);
    hide Comp, Behind, Run, AbbrFor, Reference, In, AtomOf, Extent, Copied, Grown;
    assert [] + [w] == [w];
    assert !Opens(s, []) && Regular(s, [], []) && Learnt(s, [], []) == [w];
  }

  lemma BlankFirst(rest: string, dict: seq<string>)
    requires rest != "" && !IsSpace(rest[0])
    ensures Normal(" " + rest, dict, dict) <==> Normal(rest, dict, dict)
  {
    var s := " " + rest;
    assert s[1] == rest[0] && s[1..] == rest;
    RunIs(s, 0, 1, SpaceC);
    hide Comp, Behind, Run, AbbrFor, Reference;
    assert AtomOf(s) == Gap && Extent(s) == 1 && Grown(s, dict) == dict && Learnt(s, dict, dict) == dict;
    assert !Opens(s, dict) && Regular(s, dict, dict);
  }

  /** `w $v_1w` comes back, although its `$` opens a placeholder in the code. */
  lemma DollarKnown(v: string, w: string, cap: nat)
    requires UpperWord(v) && UpperWord(w) && Lower(v) != Lower(w) && cap > 16
    ensures var s := w + (" " + Text(v, w)); Opens(Text(v, w), [w]) && Decompressed(Compressed(s), cap) == s
  {
    hide *;
    var s := w + (" " + Text(v, w));
    KnownSetting(v, w);
    KnownText(v, w);
    DollarOpens([w], v, w);
    WordFirst(w, Text(v, w));
    BlankFirst(Text(v, w), [w]);
    DollarNormal([w], v, w, [w]);
    LastNormal(w, [w] + [v], [w]);
    RoundTrip(s, cap);
  }

  lemma KnownSetting(v: string, w: string)
    requires UpperWord(v) && UpperWord(w) && Lower(v) != Lower(w)
    ensures Setting([w], v, w) && Reference([w] + [v], w) == Some(0)
  {
    UpperForm(v);
    UpperForm(w);
  }

  lemma KnownText(v: string, w: string)
    requires UpperWord(v) && UpperWord(w)
    ensures var t := Text(v, w);
            && t != "" && !IsSpace(t[0]) && !In(t[0], AlnumC)
            && |w + (" " + t)| == 16
  {
    TextShape(v, w);
    hide Text;
  }

  lemma DollarOpens(dict: seq<string>, v: string, w: string)
    requires Setting(dict, v, w)
    ensures Text(v, w) != "" && Opens(Text(v, w), dict) && Opened(Text(v, w), dict) == 7
  {
    hide Comp, Text, Run, StartsHolder, AtomOf, Setting, Opens, Opened;
    DollarCode(dict, v, w);
    OpensIff(Text(v, w), dict);
  }
}
